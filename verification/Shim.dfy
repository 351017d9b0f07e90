/** The shim's local half: a store that is filled from the bucket, bundle by bundle. */
module Shim {
  import opened Bundle
  import opened BundleName
  import opened Bytes
  import opened Options
  import opened Pointer
  import opened Reapi
  import opened Signing
  import opened Sorting
  import opened Store
  import opened Sums

  /** How big a pointer can reasonably be. */
  const SMALL_OBJECT := 4 * 1024 * 1024

  /** What reading an object comes to. */
  datatype Served = Unreachable | Gone | TooLarge | Got(data: Bytes)

  /** What becomes of a request that writes: it is carried out and answered, it is lost, or it is carried
      out although no answer arrives. */
  datatype Reply = Answered | Lost | Unheard

  /** A bucket as a shim sees it: whoever operates it decides what is under a key. */
  class Bucket {
    var objects: map<string, Bytes>
    /** The keys that cannot be read now. */
    var down: set<string>

    constructor ()
      ensures objects == map[] && down == {}
    {
      objects, down := map[], {};
    }

    function Serve(key: string, limit: nat): Served
      reads this
    {
      if key in down then Unreachable
      else if key !in objects then Gone
      else if |objects[key]| > limit then TooLarge
      else Got(objects[key])
    }

    /** Write an object; false unless the bucket says it did. */
    method Put(key: string, data: Bytes, reply: Reply) returns (done: bool)
      modifies this`objects
      ensures done <==> reply.Answered?
      ensures objects == if reply.Lost? then old(objects) else old(objects)[key := data]
    {
      if !reply.Lost? {
        objects := objects[key := data];
      }
      done := reply.Answered?;
    }

    /** Give an existing object today's date; whether there is one, unless no answer arrives. */
    method Refresh(key: string, reply: Reply) returns (there: Option<bool>)
      ensures there == if reply.Answered? then Some(key in objects) else None
    {
      there := if reply.Answered? then Some(key in objects) else None;
    }
  }

  function BundleKey(name: string): string {
    "bundle/" + name
  }

  function PointerKey(action: string): string {
    "ac/" + action
  }

  /** The blobs that still hash to their names: what reading gives. */
  function Readable(sha: Bytes -> string, files: Files): map<string, Bytes> {
    map hash | hash in files && sha(files[hash].data) == hash :: files[hash].data
  }

  /** This blob is here, at its size, and still hashes to its name. */
  predicate Intact(sha: Bytes -> string, files: Files, digest: Digest) {
    Here(files, digest) && sha(files[digest.hash].data) == digest.hash
  }

  predicate AllHere(files: Files, digests: seq<Digest>) {
    forall i :: 0 <= i < |digests| ==> Here(files, digests[i])
  }

  /** Those of these digests that the index attributes to one bundle, in order. */
  function AskedOf(known: set<string>, digests: seq<Digest>): seq<Digest> {
    if digests == [] then []
    else
      var n := |digests| - 1;
      AskedOf(known, digests[..n]) + if digests[n].hash in known then [digests[n]] else []
  }

  lemma {:induction false} AllAsked(known: set<string>, digests: seq<Digest>)
    requires forall i :: 0 <= i < |digests| ==> digests[i].hash in known
    ensures AskedOf(known, digests) == digests
  {
    if digests != [] {
      AllAsked(known, digests[..|digests| - 1]);
    }
  }

  lemma {:induction false} NoneAsked(known: set<string>, digests: seq<Digest>)
    requires forall i :: 0 <= i < |digests| ==> digests[i].hash !in known
    ensures AskedOf(known, digests) == []
  {
    if digests != [] {
      NoneAsked(known, digests[..|digests| - 1]);
    }
  }

  predicate AllHexDigests(digests: seq<Digest>) {
    forall i :: 0 <= i < |digests| ==> IsSha256Hex(digests[i].hash)
  }

  function Fetched(sha: Bytes -> string, served: Served): Option<map<string, Bytes>> {
    match served
    case Got(data) =>
      (match Unpack(sha, data)
       case None => None
       case Some(members) => Some(ByHash(members)))
    case _ => None
  }

  /** An object that came, and is no bundle. */
  predicate Unreadable(sha: Bytes -> string, served: Served) {
    served.Got? && Fetched(sha, served).None?
  }

  lemma FetchedCame(sha: Bytes -> string, served: Served)
    ensures Fetched(sha, served).Some? ==> served.Got? && !Unreadable(sha, served)
    ensures Unreadable(sha, served) <==> served.Got? && Fetched(sha, served).None?
  {
  }

  /** The members of a bundle that the index attributed to it are here, as the bundle has them. */
  predicate TakenFrom(files: Files, members: map<string, Bytes>, known: set<string>) {
    forall hash :: hash in members && hash in known ==> hash in files && files[hash].data == members[hash]
  }

  /** What refilling a bundle does, if it was needed and the bundle came. */
  predicate Refilled(before: Files, needed: seq<Digest>, fetched: Option<map<string, Bytes>>, after: Files, known: set<string>,
                     sha: Bytes -> string) {
    fetched.Some? ==>
      && (!AllHere(before, needed) ==> TakenFrom(after, fetched.value, known))
      && (AgreesWith(sha, before, fetched.value) ==> AgreesWith(sha, after, fetched.value))
  }

  /** Some blobs came in and nothing went. */
  ghost predicate Added(before: Files, after: Files, brought: map<string, Bytes>) {
    && after.Keys == before.Keys + brought.Keys
    && forall hash :: hash in after ==> after[hash].data == if hash in brought then brought[hash] else before[hash].data
  }

  lemma AddedAll(before: Files, rows: Rows, after: Files, left: Rows, brought: map<string, Bytes>)
    requires before.Keys == Present(rows) && after.Keys == Present(left)
    requires Present(left) == Present(rows) + brought.Keys && FewerOthers(before, after, brought.Keys)
    requires forall hash :: hash in brought ==> hash in after && after[hash].data == brought[hash]
    ensures Added(before, after, brought)
  {
  }

  lemma SameThenAdded(a: Files, b: Files, c: Files, brought: map<string, Bytes>)
    requires SameBytes(a, b)
    ensures Added(b, c, brought) ==> Added(a, c, brought)
  {
  }

  lemma AddedNothing(files: Files)
    ensures Added(files, files, map[])
  {
  }

  lemma AddedKeepsHere(before: Files, after: Files, brought: map<string, Bytes>, digests: seq<Digest>, needed: seq<Digest>)
    requires Added(before, after, brought) || SameBytes(before, after)
    requires forall digest :: digest in digests && digest.hash in brought ==> |brought[digest.hash]| == digest.size
    requires forall digest :: digest in needed ==> digest in digests && digest.hash in brought
    ensures forall digest :: digest in digests && Here(before, digest) ==> Here(after, digest)
    ensures Added(before, after, brought) ==> AllHere(after, needed)
  {
  }

  lemma StillHereAll(before: Files, after: Files, digests: seq<Digest>, needed: seq<Digest>)
    requires forall digest :: digest in digests && Here(before, digest) ==> Here(after, digest)
    requires AllHere(before, needed) && forall digest :: digest in needed ==> digest in digests
    ensures AllHere(after, needed)
  {
    forall i | 0 <= i < |needed|
      ensures Here(after, needed[i])
    {
      assert needed[i] in needed;
    }
  }

  lemma RoomToBring(present: set<string>, batch: set<string>, weight: string -> nat)
    ensures Sum(present + batch, weight) == Sum(present, weight) + Sum(batch - present, weight)
  {
    SumOfParts(present, batch - present, weight);
    assert present + (batch - present) == present + batch;
  }

  lemma LessRoomNeeded(some: set<string>, all: set<string>, weight: string -> nat)
    requires some <= all
    ensures Sum(some, weight) <= Sum(all, weight)
  {
    SumOfSubset(some, all, weight);
  }

  lemma {:induction false} AskedAre(known: set<string>, digests: seq<Digest>)
    ensures forall digest :: digest in AskedOf(known, digests) <==> digest in digests && digest.hash in known
  {
    if digests != [] {
      var n := |digests| - 1;
      AskedAre(known, digests[..n]);
      assert digests == digests[..n] + [digests[n]];
    }
  }

  /** What is here under a member's name, and hashes to it, is the member. Only a collision could make
      it anything else. */
  predicate AgreesWith(sha: Bytes -> string, files: Files, members: map<string, Bytes>) {
    forall hash :: hash in members && hash in files && sha(files[hash].data) == hash ==> files[hash].data == members[hash]
  }

  /** An index within its row bound keeps its rows and results. */
  predicate SameIndex(before: Rows, results: Results, after: Rows, left: Results, maxRows: nat) {
    HasRoom(before, {}, results, {}, maxRows) ==> after.Keys == before.Keys && left == results
  }

  /** The index attributes every one of these to a bundle that came from the bucket and has them. */
  ghost predicate Refillable(rows: Rows, fetched: Option<map<string, Bytes>>, name: string, digests: seq<Digest>) {
    fetched.Some?
    && forall digest :: digest in digests ==>
         && digest.hash in Attributed(rows, name)
         && digest.hash in fetched.value && |fetched.value[digest.hash]| == digest.size
  }

  /** Members named by their own hashes, with the sizes their hashes stand for. */
  ghost predicate GenuineMembers(members: map<string, Bytes>, sha: Bytes -> string, sizeOf: string -> nat) {
    forall hash :: hash in members ==>
      IsSha256Hex(hash) && sha(members[hash]) == hash && |members[hash]| == sizeOf(hash)
  }

  ghost predicate SizedMembers(members: seq<Member>, sizeOf: string -> nat) {
    forall member :: member in members ==> sizeOf(member.hash) == |member.blob|
  }

  /** A hash stands for one size, for whatever the bucket has under a bundle's key that unpacks. */
  ghost predicate OneSizePerHash(objects: map<string, Bytes>, sha: Bytes -> string, sizeOf: string -> nat) {
    forall name :: BundleKey(name) in objects && Unpack(sha, objects[BundleKey(name)]).Some? ==>
      SizedMembers(Unpack(sha, objects[BundleKey(name)]).value, sizeOf)
  }

  lemma {:induction false} ByHashHolds(members: seq<Member>, sizeOf: string -> nat)
    requires SizedMembers(members, sizeOf)
    ensures forall hash :: hash in ByHash(members) ==>
              exists member :: member in members && member.hash == hash && ByHash(members)[hash] == member.blob
    ensures Sum(ByHash(members).Keys, sizeOf) <= TotalSize(members)
  {
    if members != [] {
      var n := |members| - 1;
      var front, last := members[..n], members[n];
      assert members == front + [last];
      ByHashHolds(front, sizeOf);
      var keys := ByHash(front).Keys;
      assert ByHash(members).Keys == keys + {last.hash};
      if last.hash in keys {
        assert keys + {last.hash} == keys;
      } else {
        SumWith(keys, sizeOf, last.hash);
      }
    }
  }

  /** What comes out of a bundle is genuine whatever the bucket served, and no bigger than it. */
  lemma FetchedIsGenuine(sha: Bytes -> string, served: Served, sizeOf: string -> nat)
    requires NamesBytes(sha) && Fetched(sha, served).Some?
    requires SizedMembers(Unpack(sha, served.data).value, sizeOf)
    ensures GenuineMembers(Fetched(sha, served).value, sha, sizeOf)
    ensures Sum(Fetched(sha, served).value.Keys, sizeOf) <= |served.data|
  {
    hide IsSha256Hex, ByHash, TotalSize, Unpack;
    var members := Unpack(sha, served.data).value;
    UnpackedMembersAreGenuine(sha, served.data);
    ByHashHolds(members, sizeOf);
  }

  /** Blobs made of some of these members, once each, under the digests they make. */
  ghost predicate BlobsMade(members: map<string, Bytes>, names: set<string>, blobs: seq<Blob>) {
    && OneEach(blobs) && Hashes(blobs) == names
    && forall blob :: blob in blobs ==>
         blob.digest.hash in members && blob.data == members[blob.digest.hash] && blob.digest.size == |blob.data|
  }

  lemma OneMoreBlob(members: map<string, Bytes>, names: set<string>, blobs: seq<Blob>, hash: string)
    requires BlobsMade(members, names, blobs) && hash in members && hash !in names
    ensures BlobsMade(members, names + {hash}, blobs + [Blob(Digest(hash, |members[hash]|), members[hash])])
  {
    var blob := Blob(Digest(hash, |members[hash]|), members[hash]);
    assert forall i :: 0 <= i < |blobs| ==> blobs[i].digest.hash in Hashes(blobs);
    assert Hashes(blobs + [blob]) == Hashes(blobs) + {hash};
  }

  /** Blobs to store, under the digests they make. */
  method ToBlobs(members: map<string, Bytes>) returns (blobs: seq<Blob>)
    ensures BlobsMade(members, members.Keys, blobs)
  {
    hide BlobsMade;
    blobs := [];
    var todo := members.Keys;
    NoBlobsMade(members);
    assert members.Keys - todo == {};
    while todo != {}
      invariant todo <= members.Keys && BlobsMade(members, members.Keys - todo, blobs)
      decreases |todo|
    {
      var hash :| hash in todo;
      OneMoreBlob(members, members.Keys - todo, blobs, hash);
      assert members.Keys - (todo - {hash}) == members.Keys - todo + {hash};
      blobs := blobs + [Blob(Digest(hash, |members[hash]|), members[hash])];
      todo := todo - {hash};
    }
    assert members.Keys - {} == members.Keys;
  }

  lemma NoBlobsMade(members: map<string, Bytes>)
    ensures BlobsMade(members, {}, [])
  {
  }

  /** Refilling from the bundle a row already names changes no row's provenance. */
  function OnlyKnown(members: map<string, Bytes>, known: set<string>): map<string, Bytes> {
    map hash | hash in members && hash in known :: members[hash]
  }

  lemma KnownAreGenuine(members: map<string, Bytes>, known: set<string>, sha: Bytes -> string, sizeOf: string -> nat)
    requires GenuineMembers(members, sha, sizeOf)
    ensures GenuineMembers(OnlyKnown(members, known), sha, sizeOf) && OnlyKnown(members, known).Keys <= known
    ensures Sum(OnlyKnown(members, known).Keys, sizeOf) <= Sum(members.Keys, sizeOf)
  {
    SumOfSubset(OnlyKnown(members, known).Keys, members.Keys, sizeOf);
  }

  lemma AllKnownTaken(files: Files, members: map<string, Bytes>, known: set<string>)
    ensures (forall hash :: hash in OnlyKnown(members, known) ==>
               hash in files && files[hash].data == OnlyKnown(members, known)[hash]) ==>
              TakenFrom(files, members, known)
  {
  }

  lemma RoomForKnown(rows: Rows, batch: set<string>, name: string, results: Results, maxRows: nat)
    requires batch <= Attributed(rows, name)
    ensures HasRoom(rows, {}, results, {}, maxRows) ==> HasRoom(rows, batch, results, {}, maxRows)
    ensures rows.Keys + batch == rows.Keys
  {
    assert rows.Keys + batch == rows.Keys + {};
  }

  lemma TakingAgrees(before: Files, after: Files, members: map<string, Bytes>, known: set<string>, sha: Bytes -> string)
    requires FewerOthers(before, after, OnlyKnown(members, known).Keys) && TakenFrom(after, members, known)
    ensures AgreesWith(sha, before, members) ==> AgreesWith(sha, after, members)
  {
  }

  lemma SameIndexAtFirst(rows: Rows, results: Results, maxRows: nat)
    ensures SameIndex(rows, results, rows, results, maxRows)
  {
  }

  lemma SameIndexChain(a: Rows, left: Results, b: Rows, mid: Results, c: Rows, right: Results, maxRows: nat)
    requires SameIndex(a, left, b, mid, maxRows) && SameIndex(b, mid, c, right, maxRows)
    ensures SameIndex(a, left, c, right, maxRows)
  {
  }

  lemma RefillKeepsProvenance(first: Rows, before: Rows, after: Rows, batch: set<Hash>, name: string)
    requires KeepsProvenance(first, before, {}, None)
    requires KeepsProvenance(before, after, batch, Some(name)) && batch <= Attributed(before, name)
    ensures KeepsProvenance(first, after, {}, None)
  {
  }

  lemma SameProvenance(rows: Rows)
    ensures KeepsProvenance(rows, rows, {}, None)
  {
  }

  class Local {
    const store: Store
    const bucket: Bucket?
    /** Bundles that came back from the bucket not matching their name. */
    var tainted: set<string>

    constructor (store: Store, bucket: Bucket?)
      ensures this.store == store && this.bucket == bucket && tainted == {}
    {
      this.store, this.bucket, tainted := store, bucket, {};
    }

    ghost predicate Valid()
      reads this, store, bucket
    {
      && store.Settled() && NamesBytes(store.sha) && store.OneSize()
      && (bucket != null ==> OneSizePerHash(bucket.objects, store.sha, store.sizeOf))
    }

    /** What fetching a bundle comes to. */
    function ServedBundle(name: string): Served
      reads bucket
      requires bucket != null
    {
      bucket.Serve(BundleKey(name), store.maxBytes)
    }

    /** No bundle is tainted but by what the bucket served under its name. */
    ghost predicate TaintedBy(before: set<string>, after: set<string>)
      reads bucket
    {
      before <= after && forall name :: name in after && name !in before ==> bucket != null && Unreadable(store.sha, ServedBundle(name))
    }

    /** A bundle's members by hash. An object over the store's bound is not read; one that does not
        unpack taints its name. */
    method FetchBundle(name: string) returns (members: Option<map<string, Bytes>>)
      requires bucket != null
      modifies this`tainted
      ensures members == Fetched(store.sha, ServedBundle(name))
      ensures var served := ServedBundle(name);
              tainted == old(tainted) + if Unreadable(store.sha, served) then {name} else {}
    {
      match ServedBundle(name) {
        case Got(packed) =>
          var unpacked := UnpackBundle(store.sha, packed);
          if unpacked.None? {
            Refuse(name);
            return None;
          }
          return Some(ByHash(unpacked.value));
        case _ =>
          return None;
      }
    }

    /** This bundle is not what its name says. */
    method Refuse(name: string)
      modifies this`tainted
      ensures tainted == old(tainted) + {name}
    {
      tainted := tainted + {name};
    }

    lemma FetchedFits(name: string)
      requires Valid() && bucket != null
      ensures var served := ServedBundle(name);
              Fetched(store.sha, served).Some? ==>
                GenuineMembers(Fetched(store.sha, served).value, store.sha, store.sizeOf)
                && Sum(Fetched(store.sha, served).value.Keys, store.sizeOf) <= store.maxBytes
    {
      hide Unpack, ByHash;
      var served := ServedBundle(name);
      if Fetched(store.sha, served).Some? {
        assert BundleKey(name) in bucket.objects;
        FetchedIsGenuine(store.sha, served, store.sizeOf);
      }
    }

    /** Every member into the store, each remembering the bundle it can be fetched from again. */
    method Admit(members: map<string, Bytes>, name: string, now: nat)
      requires Valid() && GenuineMembers(members, store.sha, store.sizeOf)
      modifies store
      ensures Valid() && (old(store.Genuine()) ==> store.Genuine())
      ensures KeepsProvenance(old(store.rows), store.rows, members.Keys, Some(name))
      ensures FewerResults(old(store.results), store.results)
      ensures FewerOthers(old(store.files), store.files, members.Keys)
      ensures HasRoom(old(store.rows), members.Keys, old(store.results), {}, store.maxRows) ==>
                store.rows.Keys == old(store.rows).Keys + members.Keys && store.results == old(store.results)
      ensures Sum(members.Keys, store.sizeOf) <= store.maxBytes ==>
                forall hash :: hash in members ==> hash in store.files && store.files[hash].data == members[hash]
      ensures Sum(Present(old(store.rows)) + members.Keys, store.sizeOf) <= store.maxBytes ==>
                Added(old(store.files), store.files, members)
    {
      hide KeepsProvenance, FewerResults, FewerOthers, GenuineFiles, SizedFiles, Present, Sized, IsSha256Hex, HasRoom, Added;
      var blobs := ToBlobs(members);
      ghost var rows0, files0 := store.rows, store.files;
      RoomToBring(Present(rows0), members.Keys, store.sizeOf);
      LessRoomNeeded(members.Keys, Present(rows0) + members.Keys, store.sizeOf);
      var ok := store.PutBlobs(blobs, Some(name), now);
      assert ok;
      if Sum(members.Keys, store.sizeOf) <= store.maxBytes {
        forall hash | hash in members
          ensures hash in store.files && store.files[hash].data == members[hash]
        {
          assert hash in Hashes(blobs);
        }
      }
      if Sum(Present(rows0) + members.Keys, store.sizeOf) <= store.maxBytes {
        AddedAll(files0, rows0, store.files, store.rows, members);
      }
    }

    /** What refilling a bundle can bring: those of its members that the index attributes to it. */
    function Brought(rows: Rows, name: string): map<string, Bytes>
      reads bucket
      requires bucket != null
    {
      match Fetched(store.sha, ServedBundle(name))
      case None => map[]
      case Some(members) => OnlyKnown(members, Attributed(rows, name))
    }

    ghost function AllBrought(rows: Rows, names: set<string>): set<string>
      reads bucket
      requires bucket != null
    {
      set name, hash | name in names && hash in Brought(rows, name) :: hash
    }

    lemma SameBrought(before: Rows, after: Rows, name: string)
      requires bucket != null && KeepsProvenance(before, after, {}, None) && after.Keys == before.Keys
      ensures Brought(after, name) == Brought(before, name)
    {
      hide Fetched;
      assert Attributed(after, name) == Attributed(before, name);
    }

    lemma BroughtByOne(rows: Rows, names: set<string>, name: string)
      requires bucket != null && name in names
      ensures Brought(rows, name).Keys <= AllBrought(rows, names)
    {
      hide Fetched;
    }

    /** There is room for everything that these bundles bring, and they bring what is wanted of them, at
        its size. */
    ghost predicate Together(rows: Rows, results: Results, wanted: map<string, seq<Digest>>, digests: seq<Digest>)
      reads bucket
      requires bucket != null
    {
      && HasRoom(rows, {}, results, {}, store.maxRows)
      && Sum(Present(rows) + AllBrought(rows, wanted.Keys), store.sizeOf) <= store.maxBytes
      && forall name :: name in wanted ==>
           && (forall digest :: digest in wanted[name] ==> digest in digests && digest.hash in Brought(rows, name))
           && (forall digest :: digest in digests && digest.hash in Brought(rows, name) ==>
                 |Brought(rows, name)[digest.hash]| == digest.size)
    }

    /** Refill blobs from the bundle the index says they came in. Only what the index already
        attributes to the bundle is taken from it. */
    method Refill(name: string, now: nat)
      requires Valid() && bucket != null
      modifies this`tainted, store
      ensures Valid() && (old(store.Genuine()) ==> store.Genuine())
      ensures KeepsProvenance(old(store.rows), store.rows, {}, None)
      ensures FewerResults(old(store.results), store.results)
      ensures tainted == old(tainted) + if Unreadable(store.sha, ServedBundle(name)) then {name} else {}
      ensures var fetched := Fetched(store.sha, ServedBundle(name));
              if fetched.Some? then
                TakenFrom(store.files, fetched.value, Attributed(old(store.rows), name))
                && (AgreesWith(store.sha, old(store.files), fetched.value) ==> AgreesWith(store.sha, store.files, fetched.value))
              else store.rows == old(store.rows) && store.files == old(store.files) && store.results == old(store.results)
      ensures var brought := Brought(old(store.rows), name);
              Sum(Present(old(store.rows)) + brought.Keys, store.sizeOf) <= store.maxBytes ==> Added(old(store.files), store.files, brought)
      ensures SameIndex(old(store.rows), old(store.results), store.rows, store.results, store.maxRows)
    {
      hide KeepsProvenance, FewerResults, FewerOthers, GenuineFiles, SizedFiles, GenuineMembers, Present, Sized, Fetched, Unreadable, OneSizePerHash,
           Attributed, NamesBytes, TakenFrom, OnlyKnown, HasRoom, AgreesWith, Added;
      SameProvenance(store.rows);
      FetchedFits(name);
      FetchedCame(store.sha, ServedBundle(name));
      var members := FetchBundle(name);
      if members.Some? {
        var known := store.MembersOf(name);
        var admitted := OnlyKnown(members.value, known);
        ghost var rows0, files0 := store.rows, store.files;
        KnownAreGenuine(members.value, known, store.sha, store.sizeOf);
        RoomForKnown(rows0, admitted.Keys, name, store.results, store.maxRows);
        Admit(admitted, name, now);
        AllKnownTaken(store.files, members.value, known);
        TakingAgrees(files0, store.files, members.value, known, store.sha);
        RefillKeepsProvenance(rows0, rows0, store.rows, admitted.Keys, name);
      } else {
        SameResults(store.results);
        AddedNothing(store.files);
      }
    }

    /** The bundles that missing blobs can be fetched from, as far as the index knows. */
    method Wanted(missing: seq<Digest>) returns (wanted: map<string, seq<Digest>>)
      ensures forall name :: name in wanted <==> AskedOf(Attributed(store.rows, name), missing) != []
      ensures forall name :: name in wanted ==> wanted[name] == AskedOf(Attributed(store.rows, name), missing)
    {
      wanted := map[];
      for i := 0 to |missing|
        invariant forall name :: name in wanted <==> AskedOf(Attributed(store.rows, name), missing[..i]) != []
        invariant forall name :: name in wanted ==> wanted[name] == AskedOf(Attributed(store.rows, name), missing[..i])
      {
        assert missing[..i + 1][..i] == missing[..i];
        var bundle := store.BundleOf(missing[i]);
        if bundle.Some? {
          var name := bundle.value;
          wanted := wanted[name := (if name in wanted then wanted[name] else []) + [missing[i]]];
        }
      }
      assert missing[..|missing|] == missing;
    }

    lemma StillTaintedBy(before: set<string>, after: set<string>, name: string)
      requires TaintedBy(before, after) && bucket != null
      ensures TaintedBy(before, after + if Unreadable(store.sha, ServedBundle(name)) then {name} else {})
    {
    }

    lemma TaintsNothing(tainted: set<string>)
      ensures TaintedBy(tainted, tainted)
    {
    }

    lemma TaintsChain(a: set<string>, b: set<string>, c: set<string>)
      requires TaintedBy(a, b) && TaintedBy(b, c)
      ensures TaintedBy(a, c)
    {
    }

    /** Refill a bundle, if something that was asked of it is still missing. */
    method RefillMissing(name: string, needed: seq<Digest>, now: nat)
      requires Valid() && bucket != null
      modifies this`tainted, store
      ensures Valid() && (old(store.Genuine()) ==> store.Genuine())
      ensures KeepsProvenance(old(store.rows), store.rows, {}, None)
      ensures FewerResults(old(store.results), store.results)
      ensures TaintedBy(old(tainted), tainted)
      ensures Refilled(old(store.files), needed, Fetched(store.sha, ServedBundle(name)), store.files, Attributed(old(store.rows), name),
                       store.sha)
      ensures var brought := Brought(old(store.rows), name);
              Sum(Present(old(store.rows)) + brought.Keys, store.sizeOf) <= store.maxBytes ==>
                Added(old(store.files), store.files, brought)
                || (AllHere(old(store.files), needed) && SameBytes(old(store.files), store.files))
      ensures SameIndex(old(store.rows), old(store.results), store.rows, store.results, store.maxRows)
    {
      hide KeepsProvenance, FewerResults, FewerOthers, GenuineFiles, SizedFiles, Present, Sized, OneSizePerHash, IsSha256Hex, Here, NamesBytes,
           Fetched, Unreadable, TakenFrom, Attributed, AgreesWith, Added, Brought;
      SameProvenance(store.rows);
      SameResults(store.results);
      StillTaintedBy(tainted, tainted, name);
      ghost var files0 := store.files;
      var already := store.HasBlobs(needed, now);
      if Fetched(store.sha, ServedBundle(name)).Some? {
        StillAgrees(store.sha, files0, store.files, Fetched(store.sha, ServedBundle(name)).value);
      }
      if already.None? || false in already.value {
        ghost var files1 := store.files;
        Refill(name, now);
        SameThenAdded(files0, files1, store.files, Brought(old(store.rows), name));
      }
    }

    lemma RoomForOne(first: Rows, results: Results, rows: Rows, left: Results, wanted: map<string, seq<Digest>>, digests: seq<Digest>,
                     name: string)
      requires bucket != null && Together(first, results, wanted, digests) && name in wanted
      requires KeepsProvenance(first, rows, {}, None) && SameIndex(first, results, rows, left, store.maxRows)
      requires Present(rows) <= Present(first) + AllBrought(first, wanted.Keys)
      ensures Brought(rows, name) == Brought(first, name)
      ensures Sum(Present(rows) + Brought(rows, name).Keys, store.sizeOf) <= store.maxBytes
    {
      hide Fetched, Brought, KeepsProvenance, AllBrought, Present, HasRoom;
      SameBrought(first, rows, name);
      BroughtByOne(first, wanted.Keys, name);
      LessRoomNeeded(Present(rows) + Brought(rows, name).Keys, Present(first) + AllBrought(first, wanted.Keys), store.sizeOf);
    }

    lemma OneMoreRefilled(first: Rows, results: Results, rows: Rows, files: Files, left: Rows, after: Files,
                          wanted: map<string, seq<Digest>>, digests: seq<Digest>, name: string, done: set<string>)
      requires bucket != null && Together(first, results, wanted, digests) && name in wanted && done <= wanted.Keys
      requires files.Keys == Present(rows) && after.Keys == Present(left)
      requires Present(rows) <= Present(first) + AllBrought(first, wanted.Keys)
      requires Added(files, after, Brought(first, name)) || (AllHere(files, wanted[name]) && SameBytes(files, after))
      requires forall other :: other in done ==> AllHere(files, wanted[other])
      ensures Present(left) <= Present(first) + AllBrought(first, wanted.Keys)
      ensures forall digest :: digest in digests && Here(files, digest) ==> Here(after, digest)
      ensures forall other :: other in done + {name} ==> AllHere(after, wanted[other])
    {
      hide Fetched, Brought, AllBrought, Here, HasRoom, AllHere;
      BroughtByOne(first, wanted.Keys, name);
      AddedKeepsHere(files, after, Brought(first, name), digests, wanted[name]);
      forall other | other in done + {name}
        ensures AllHere(after, wanted[other])
      {
        if AllHere(files, wanted[other]) {
          StillHereAll(files, after, digests, wanted[other]);
        }
      }
    }

    /** Refill every wanted bundle of which something is still missing. With one bundle wanted, what the
        index attributes to it is here afterwards. With more, one may evict what another brought, but not
        where there is room for all they bring: then what was wanted of each is here, and whatever of
        `digests` was here before still is. */
    method RefillAll(wanted: map<string, seq<Digest>>, ghost digests: seq<Digest>, ghost only: string, now: nat)
      requires Valid() && bucket != null
      modifies this`tainted, store
      ensures Valid() && (old(store.Genuine()) ==> store.Genuine())
      ensures KeepsProvenance(old(store.rows), store.rows, {}, None)
      ensures FewerResults(old(store.results), store.results)
      ensures TaintedBy(old(tainted), tainted)
      ensures wanted.Keys == {only} ==>
                Refilled(old(store.files), wanted[only], Fetched(store.sha, ServedBundle(only)), store.files, Attributed(old(store.rows), only),
                         store.sha)
      ensures Together(old(store.rows), old(store.results), wanted, digests) ==>
                && (forall digest :: digest in digests && Here(old(store.files), digest) ==> Here(store.files, digest))
                && (forall name :: name in wanted ==> AllHere(store.files, wanted[name]))
      ensures SameIndex(old(store.rows), old(store.results), store.rows, store.results, store.maxRows)
    {
      hide KeepsProvenance, FewerResults, GenuineFiles, SizedFiles, Present, Sized, OneSizePerHash, NamesBytes,
           Fetched, Unreadable, TakenFrom, Attributed, AllHere, TaintedBy, Refilled, SameIndex, Together, Here, Brought, SameBytes, Added;
      SameIndexAtFirst(store.rows, store.results, store.maxRows);
      TaintsNothing(tainted);
      SameProvenance(store.rows);
      SameResults(store.results);
      var todo := wanted.Keys;
      ghost var begun := false;
      while todo != {}
        invariant Valid() && (old(store.Genuine()) ==> store.Genuine())
        invariant KeepsProvenance(old(store.rows), store.rows, {}, None)
        invariant FewerResults(old(store.results), store.results)
        invariant TaintedBy(old(tainted), tainted)
        invariant SameIndex(old(store.rows), old(store.results), store.rows, store.results, store.maxRows)
        invariant todo <= wanted.Keys
        invariant !begun ==> todo == wanted.Keys && store.rows == old(store.rows) && store.files == old(store.files)
        invariant begun && wanted.Keys == {only} ==>
                    todo == {}
                    && Refilled(old(store.files), wanted[only], Fetched(store.sha, ServedBundle(only)), store.files,
                                Attributed(old(store.rows), only), store.sha)
        invariant Together(old(store.rows), old(store.results), wanted, digests) ==>
                    && Present(store.rows) <= Present(old(store.rows)) + AllBrought(old(store.rows), wanted.Keys)
                    && (forall digest :: digest in digests && Here(old(store.files), digest) ==> Here(store.files, digest))
                    && (forall name :: name in wanted.Keys - todo ==> AllHere(store.files, wanted[name]))
        decreases |todo|
      {
        var name :| name in todo;
        todo := todo - {name};
        begun := true;
        ghost var rows1, results1, tainted1, files1 := store.rows, store.results, tainted, store.files;
        ghost var together := Together(old(store.rows), old(store.results), wanted, digests);
        if together {
          RoomForOne(old(store.rows), old(store.results), rows1, results1, wanted, digests, name);
        }
        RefillMissing(name, wanted[name], now);
        if together {
          OneMoreRefilled(old(store.rows), old(store.results), rows1, files1, store.rows, store.files, wanted, digests, name,
                          wanted.Keys - todo - {name});
        }
        ProvenanceChains(old(store.rows), rows1, store.rows);
        ResultsChain(old(store.results), results1, store.results);
        TaintsChain(old(tainted), tainted1, tainted);
        SameIndexChain(old(store.rows), old(store.results), rows1, results1, store.rows, store.results, store.maxRows);
      }
    }

    /** Which of these are missing, or nothing if one of them names no digest. */
    method Absent(digests: seq<Digest>, now: nat) returns (missing: Option<seq<Digest>>)
      requires Valid()
      modifies store
      ensures Valid() && (old(store.Genuine()) ==> store.Genuine())
      ensures missing.None? <==> !AllHexDigests(digests)
      ensures missing.Some? ==> (missing.value == [] <==> AllHere(old(store.files), digests))
      ensures missing.Some? ==>
                forall digest :: digest in missing.value <==> digest in digests && !Here(old(store.files), digest)
      ensures SameBytes(old(store.files), store.files) && AllHere(store.files, digests) == AllHere(old(store.files), digests)
      ensures store.rows == old(store.rows) && store.results == old(store.results)
    {
      hide GenuineFiles, SizedFiles, Present, Sized, OneSizePerHash, IsSha256Hex, Here, NamesBytes, SameBytes;
      var here := store.HasBlobs(digests, now);
      SameBytesSameHere(old(store.files), store.files, digests);
      if here.None? {
        return None;
      }
      return Some(NotHere(digests, here.value));
    }

    /** The bundles the index attributes missing blobs to. */
    ghost function Sources(rows: Rows, files: Files, digests: seq<Digest>): set<string> {
      set digest | digest in digests && !Here(files, digest) && digest.hash in rows && rows[digest.hash].bundle.Some?
        :: rows[digest.hash].bundle.value
    }

    /** Every missing blob is in the bundle the index attributes it to, which the bucket serves; and there
        is room for all that those bundles bring, however many they are. */
    ghost predicate Obtainable(rows: Rows, results: Results, files: Files, digests: seq<Digest>)
      reads bucket
      requires bucket != null
    {
      var names := Sources(rows, files, digests);
      && HasRoom(rows, {}, results, {}, store.maxRows)
      && Sum(Present(rows) + AllBrought(rows, names), store.sizeOf) <= store.maxBytes
      && (forall digest :: digest in digests && !Here(files, digest) ==>
            digest.hash in rows && rows[digest.hash].bundle.Some? && digest.hash in Brought(rows, rows[digest.hash].bundle.value))
      && (forall name, digest :: name in names && digest in digests && digest.hash in Brought(rows, name) ==>
            |Brought(rows, name)[digest.hash]| == digest.size)
    }

    lemma SameSources(a: Files, b: Files, rows: Rows, results: Results, digests: seq<Digest>)
      requires bucket != null && forall digest :: Here(a, digest) <==> Here(b, digest)
      requires Obtainable(rows, results, a, digests)
      ensures Obtainable(rows, results, b, digests)
    {
      hide Fetched, Here, HasRoom, Brought, AllBrought;
      assert Sources(rows, a, digests) == Sources(rows, b, digests);
    }

    /** What is obtainable is asked of its bundles, and fits together. */
    lemma ObtainableTogether(rows: Rows, results: Results, files: Files, digests: seq<Digest>, missing: seq<Digest>,
                             wanted: map<string, seq<Digest>>)
      requires bucket != null && Obtainable(rows, results, files, digests)
      requires forall digest :: digest in missing <==> digest in digests && !Here(files, digest)
      requires forall name :: name in wanted <==> AskedOf(Attributed(rows, name), missing) != []
      requires forall name :: name in wanted ==> wanted[name] == AskedOf(Attributed(rows, name), missing)
      ensures Together(rows, results, wanted, digests)
      ensures forall digest :: digest in missing ==> exists name :: name in wanted && digest in wanted[name]
    {
      hide Fetched, Here, HasRoom, AskedOf, Brought, AllBrought;
      forall name
        ensures forall digest :: digest in AskedOf(Attributed(rows, name), missing) <==>
                  digest in missing && digest.hash in Attributed(rows, name)
      {
        AskedAre(Attributed(rows, name), missing);
      }
      forall digest | digest in missing
        ensures rows[digest.hash].bundle.Some? && rows[digest.hash].bundle.value in wanted
        ensures digest in wanted[rows[digest.hash].bundle.value]
      {
        assert digest in AskedOf(Attributed(rows, rows[digest.hash].bundle.value), missing);
      }
      forall name | name in wanted
        ensures name in Sources(rows, files, digests)
      {
        assert wanted[name][0] in wanted[name];
      }
      assert wanted.Keys == Sources(rows, files, digests);
    }

    /** Make all of these present, fetching whole bundles rather than asking per blob. If the index
        attributes all of them to one bundle, that is `source`. */
    method Ensure(digests: seq<Digest>, ghost source: string, now: nat) returns (all: Option<bool>)
      requires Valid()
      modifies this`tainted, store
      ensures Valid() && (old(store.Genuine()) ==> store.Genuine())
      ensures all.None? <==> !AllHexDigests(digests)
      ensures all.None? ==> SameBytes(old(store.files), store.files)
                            && store.rows == old(store.rows) && store.results == old(store.results)
      ensures all.Some? ==> (all.value <==> AllHere(store.files, digests))
      ensures KeepsProvenance(old(store.rows), store.rows, {}, None)
      ensures FewerResults(old(store.results), store.results)
      ensures TaintedBy(old(tainted), tainted)
      ensures SameIndex(old(store.rows), old(store.results), store.rows, store.results, store.maxRows)
      ensures bucket != null && AllHexDigests(digests) ==>
                var fetched := Fetched(store.sha, ServedBundle(source));
                Refillable(old(store.rows), fetched, source, digests) ==>
                  && all == Some(true)
                  && Refilled(old(store.files), digests, fetched, store.files, Attributed(old(store.rows), source), store.sha)
      ensures bucket != null && AllHexDigests(digests) && Obtainable(old(store.rows), old(store.results), old(store.files), digests) ==>
                all == Some(true)
      ensures AllHexDigests(digests) && AllHere(old(store.files), digests) ==>
                all == Some(true) && SameBytes(old(store.files), store.files)
                && store.rows == old(store.rows) && store.results == old(store.results)
    {
      hide KeepsProvenance, FewerResults, AllHexDigests, AllHere, GenuineFiles, SizedFiles, Present, Sized, OneSizePerHash, SameBytes,
           NamesBytes, TakenFrom, Fetched, Attributed, AskedOf, Unreadable, Here, AgreesWith, SameIndex, Obtainable, Together;
      SameProvenance(store.rows);
      SameResults(store.results);
      SameIndexAtFirst(store.rows, store.results, store.maxRows);
      ghost var was := store.files;
      var missing := Absent(digests, now);
      SameBytesAnyHere(was, store.files);
      if missing.None? {
        return None;
      }
      if missing.value == [] {
        if bucket != null && Refillable(store.rows, Fetched(store.sha, ServedBundle(source)), source, digests) {
          StillAgrees(store.sha, was, store.files, Fetched(store.sha, ServedBundle(source)).value);
        }
        return Some(true);
      }
      if bucket == null {
        return Some(false);
      }
      ghost var rows0, files0 := store.rows, store.files;
      ghost var fetched := Fetched(store.sha, ServedBundle(source));
      var wanted := Wanted(missing.value);
      ghost var obtainable := Obtainable(rows0, store.results, was, digests);
      if obtainable {
        SameSources(was, files0, rows0, store.results, digests);
        ObtainableTogether(rows0, store.results, files0, digests, missing.value, wanted);
      }
      RefillAll(wanted, digests, source, now);
      ghost var files1 := store.files;
      if obtainable {
        AllObtained(files0, files1, digests, missing.value, wanted);
      }
      ghost var asked := missing.value;
      missing := Absent(digests, now);
      if Refillable(rows0, fetched, source, digests) {
        OnlyOneAsked(rows0, files0, fetched, source, digests, asked, wanted);
        TakenIsHere(rows0, files1, fetched, source, digests);
        StillTaken(files1, store.files, fetched.value, Attributed(rows0, source));
        StillAgrees(store.sha, was, files0, fetched.value);
        StillAgrees(store.sha, files1, store.files, fetched.value);
      }
      return Some(missing == Some([]));
    }

    /** Make a blob present if that can be done, and then read it. */
    method TryRead(digest: Digest, ghost source: string, now: nat) returns (found: Read, tried: bool)
      requires Valid()
      modifies this`tainted, store
      ensures Valid() && (old(store.Genuine()) ==> store.Genuine())
      ensures found.NoDigest? <==> !IsSha256Hex(digest.hash)
      ensures found.NoDigest? ==> SameBytes(old(store.files), store.files)
                                  && store.rows == old(store.rows) && store.results == old(store.results)
      ensures found.Content? ==> store.sha(found.data) == digest.hash
      ensures found.Missing? ==> !Intact(store.sha, store.files, digest)
      ensures KeepsProvenance(old(store.rows), store.rows, {}, None)
      ensures FewerResults(old(store.results), store.results)
      ensures TaintedBy(old(tainted), tainted)
      ensures SameIndex(old(store.rows), old(store.results), store.rows, store.results, store.maxRows)
      ensures bucket != null && IsSha256Hex(digest.hash) ==>
                var fetched := Fetched(store.sha, ServedBundle(source));
                Refillable(old(store.rows), fetched, source, [digest]) ==>
                  && (found.Missing? ==>
                        tried && digest.hash in old(store.files) && digest.hash !in store.files
                        && Refillable(store.rows, fetched, source, [digest]))
                  && (AgreesWith(store.sha, old(store.files), fetched.value) ==>
                        && AgreesWith(store.sha, store.files, fetched.value)
                        && (found.Content? ==> digest.hash in fetched.value && found.data == fetched.value[digest.hash]))
      ensures IsSha256Hex(digest.hash) && Intact(store.sha, old(store.files), digest) ==>
                found == Content(old(store.files)[digest.hash].data) && SameBytes(old(store.files), store.files)
                && store.rows == old(store.rows) && store.results == old(store.results)
    {
      hide KeepsProvenance, FewerResults, GenuineFiles, SizedFiles, Present, Sized, OneSizePerHash, IsSha256Hex, Fetched, Refillable, Unreadable,
           Attributed, ForgetRows, AgreesWith, SameIndex, TakenFrom, Refilled, Obtainable;
      ghost var fetched := if bucket == null then None else Fetched(store.sha, ServedBundle(source));
      ghost var backed := Refillable(store.rows, fetched, source, [digest]);
      ghost var rows0, results0, files0 := store.rows, store.results, store.files;
      var all := Ensure([digest], source, now);
      if all.None? {
        return NoDigest, false;
      }
      if !all.value {
        return Missing, false;
      }
      tried := true;
      assert Here(store.files, [digest][0]);
      ghost var rows1, files1 := store.rows, store.files;
      found := store.ReadBlob(digest, now);
      ReadingKeeps(rows0, results0, rows1, store.rows, store.results, digest.hash, found, now, store.sizeOf, store.maxRows);
      if backed {
        ReadAgrees(rows0, source, digest, files0, files1, store.files, fetched, found, store.sha);
        if found.Missing? {
          StillRefillable(rows0, rows1, files1, fetched, source, digest, now);
          if digest.hash !in files0 {
            FetchedFits(source);
            TakenIsGenuine(rows0, fetched, source, digest, files0, files1, store.sha, store.sizeOf);
          }
        }
      }
    }

    /** A blob's bytes, fetching the bundle it arrived in if they are no longer here, or no longer hash
        to their name. If the index attributes it to a bundle, that is `source`. */
    method Blob(digest: Digest, ghost source: string, now: nat) returns (found: Read)
      requires Valid()
      modifies this`tainted, store
      ensures Valid() && (old(store.Genuine()) ==> store.Genuine())
      ensures found.NoDigest? <==> !IsSha256Hex(digest.hash)
      ensures found.NoDigest? ==> SameBytes(old(store.files), store.files)
                                  && store.rows == old(store.rows) && store.results == old(store.results)
      ensures found.Content? ==> store.sha(found.data) == digest.hash
      ensures found.Missing? ==> !Intact(store.sha, store.files, digest)
      ensures KeepsProvenance(old(store.rows), store.rows, {}, None)
      ensures FewerResults(old(store.results), store.results)
      ensures TaintedBy(old(tainted), tainted)
      ensures SameIndex(old(store.rows), old(store.results), store.rows, store.results, store.maxRows)
      ensures bucket != null && IsSha256Hex(digest.hash) ==>
                var fetched := Fetched(store.sha, ServedBundle(source));
                Refillable(old(store.rows), fetched, source, [digest]) ==>
                  && found.Content?
                  && (AgreesWith(store.sha, old(store.files), fetched.value) ==>
                        digest.hash in fetched.value && found.data == fetched.value[digest.hash]
                        && AgreesWith(store.sha, store.files, fetched.value))
      ensures IsSha256Hex(digest.hash) && Intact(store.sha, old(store.files), digest) ==>
                found == Content(old(store.files)[digest.hash].data) && SameBytes(old(store.files), store.files)
                && store.rows == old(store.rows) && store.results == old(store.results)
    {
      hide KeepsProvenance, FewerResults, GenuineFiles, SizedFiles, Present, Sized, OneSizePerHash, IsSha256Hex, Fetched, Refillable, Unreadable,
           AgreesWith, SameIndex, Intact, SameBytes, TaintedBy, NamesBytes;
      var tried;
      found, tried := TryRead(digest, source, now);
      if tried && found.Missing? {
        ghost var rows1, results1, tainted1 := store.rows, store.results, tainted;
        found, tried := TryRead(digest, source, now);
        TaintsChain(old(tainted), tainted1, tainted);
        ProvenanceChains(old(store.rows), rows1, store.rows);
        ResultsChain(old(store.results), results1, store.results);
        SameIndexChain(old(store.rows), old(store.results), rows1, results1, store.rows, store.results, store.maxRows);
      }
    }
  }

  /** The digests that are not here. */
  function NotHere(digests: seq<Digest>, here: seq<bool>): (missing: seq<Digest>)
    requires |digests| == |here|
    ensures missing == [] <==> forall i :: 0 <= i < |here| ==> here[i]
    ensures forall i :: 0 <= i < |here| && !here[i] ==> digests[i] in missing
    ensures forall digest :: digest in missing ==> exists i :: 0 <= i < |here| && !here[i] && digests[i] == digest
  {
    if digests == [] then []
    else
      var rest := NotHere(digests[1..], here[1..]);
      assert forall i :: 0 <= i < |here| - 1 ==> here[1..][i] == here[i + 1];
      assert forall i :: 0 < i < |here| ==> here[i] == here[1..][i - 1];
      (if here[0] then [] else [digests[0]]) + rest
  }

  lemma AllObtained(before: Files, after: Files, digests: seq<Digest>, missing: seq<Digest>, wanted: map<string, seq<Digest>>)
    requires forall digest :: digest in missing <==> digest in digests && !Here(before, digest)
    requires forall digest :: digest in digests && Here(before, digest) ==> Here(after, digest)
    requires forall digest :: digest in missing ==> exists name :: name in wanted && digest in wanted[name]
    requires forall name :: name in wanted ==> AllHere(after, wanted[name])
    ensures AllHere(after, digests)
  {
    forall i | 0 <= i < |digests|
      ensures Here(after, digests[i])
    {
      assert digests[i] in digests;
      if digests[i] in missing {
        var name :| name in wanted && digests[i] in wanted[name];
        var j :| 0 <= j < |wanted[name]| && wanted[name][j] == digests[i];
      }
    }
  }

  lemma SameBytesAnyHere(a: Files, b: Files)
    requires SameBytes(a, b)
    ensures forall digest :: Here(a, digest) <==> Here(b, digest)
  {
  }

  lemma OnlyOneAsked(rows: Rows, files: Files, fetched: Option<map<string, Bytes>>, name: string, digests: seq<Digest>,
                     missing: seq<Digest>, wanted: map<string, seq<Digest>>)
    requires Refillable(rows, fetched, name, digests) && missing != []
    requires forall digest :: digest in missing ==> digest in digests && !Here(files, digest)
    requires forall other :: other in wanted <==> AskedOf(Attributed(rows, other), missing) != []
    requires forall other :: other in wanted ==> wanted[other] == AskedOf(Attributed(rows, other), missing)
    ensures wanted.Keys == {name} && !AllHere(files, wanted[name])
  {
    forall i | 0 <= i < |missing|
      ensures missing[i].hash in Attributed(rows, name)
    {
      assert missing[i] in digests;
    }
    hide Refillable;
    AllAsked(Attributed(rows, name), missing);
    forall other | other != name
      ensures AskedOf(Attributed(rows, other), missing) == []
    {
      NoneAsked(Attributed(rows, other), missing);
    }
    hide AskedOf;
    assert name in wanted && wanted[name] == missing;
    assert !Here(files, missing[0]);
  }

  lemma TakenIsHere(rows: Rows, files: Files, fetched: Option<map<string, Bytes>>, name: string, digests: seq<Digest>)
    requires Refillable(rows, fetched, name, digests) && TakenFrom(files, fetched.value, Attributed(rows, name))
    ensures AllHere(files, digests)
  {
    hide Attributed;
  }

  lemma StillAgrees(sha: Bytes -> string, a: Files, b: Files, members: map<string, Bytes>)
    requires SameBytes(a, b)
    ensures AgreesWith(sha, a, members) <==> AgreesWith(sha, b, members)
  {
  }

  lemma StillTaken(a: Files, b: Files, members: map<string, Bytes>, known: set<string>)
    requires SameBytes(a, b) && TakenFrom(a, members, known)
    ensures TakenFrom(b, members, known)
  {
  }

  /** What reading a file, which may drop it, leaves of the index. */
  lemma ReadingKeeps(first: Rows, results: Results, before: Rows, after: Rows, left: Results, hash: string, found: Read, now: nat,
                     sizeOf: string -> nat, maxRows: nat)
    requires KeepsProvenance(first, before, {}, None) && SameIndex(first, results, before, left, maxRows)
    requires after == ForgetRows(before, if found.Missing? then {hash} else {}, now)
    ensures KeepsProvenance(first, after, {}, None) && SameIndex(first, results, after, left, maxRows)
    ensures !found.Missing? ==> after == before
  {
    ForgetNothing(before, now, sizeOf);
    ForgettingKeepsProvenance(before, {hash}, now);
    ProvenanceChains(first, before, after);
  }

  /** Reading a file that may have been refilled gives the bundle's bytes, where what is here agrees with
      the bundle. */
  lemma ReadAgrees(rows: Rows, name: string, digest: Digest, first: Files, before: Files, after: Files,
                   fetched: Option<map<string, Bytes>>, found: Read, sha: Bytes -> string)
    requires Refillable(rows, fetched, name, [digest]) && Refilled(first, [digest], fetched, before, Attributed(rows, name), sha)
    requires digest.hash in before && (found.Content? ==> found.data == before[digest.hash].data && sha(found.data) == digest.hash)
    requires SameBytes(before - if found.Missing? then {digest.hash} else {}, after)
    ensures AgreesWith(sha, first, fetched.value) ==>
              && AgreesWith(sha, after, fetched.value) && digest.hash in fetched.value
              && (found.Content? ==> found.data == fetched.value[digest.hash])
  {
    assert digest in [digest];
  }

  lemma TakenIsGenuine(rows: Rows, fetched: Option<map<string, Bytes>>, name: string, digest: Digest, before: Files, files: Files,
                       sha: Bytes -> string, sizeOf: string -> nat)
    requires Refillable(rows, fetched, name, [digest]) && Refilled(before, [digest], fetched, files, Attributed(rows, name), sha)
    requires digest.hash !in before && GenuineMembers(fetched.value, sha, sizeOf)
    ensures digest.hash in files && sha(files[digest.hash].data) == digest.hash
  {
    assert digest in [digest];
  }

  lemma StillRefillable(before: Rows, rows: Rows, files: Files, fetched: Option<map<string, Bytes>>, name: string, digest: Digest,
                        now: nat)
    requires KeepsProvenance(before, rows, {}, None) && files.Keys == Present(rows) && Here(files, digest)
    requires Refillable(before, fetched, name, [digest])
    ensures Refillable(ForgetRows(rows, {digest.hash}, now), fetched, name, [digest])
  {
    assert digest in [digest];
    assert digest.hash in rows;
  }

  lemma SameBytesSameHere(a: Files, b: Files, digests: seq<Digest>)
    requires SameBytes(a, b)
    ensures AllHere(a, digests) <==> AllHere(b, digests)
    ensures forall i :: 0 <= i < |digests| ==> (Here(a, digests[i]) <==> Here(b, digests[i]))
  {
  }

  lemma SameBytesSameReadable(sha: Bytes -> string, a: Files, b: Files)
    requires SameBytes(a, b)
    ensures Readable(sha, a) == Readable(sha, b)
    ensures forall digest :: Intact(sha, a, digest) <==> Intact(sha, b, digest)
  {
  }

  lemma SameResults(results: Results)
    ensures FewerResults(results, results)
  {
  }

  lemma ResultsChain(a: Results, b: Results, c: Results)
    requires FewerResults(a, b) && FewerResults(b, c)
    ensures FewerResults(a, c)
  {
  }

  lemma ProvenanceChains(a: Rows, b: Rows, c: Rows)
    requires KeepsProvenance(a, b, {}, None) && KeepsProvenance(b, c, {}, None)
    ensures KeepsProvenance(a, c, {}, None)
  {
  }

  lemma ForgettingKeepsProvenance(rows: Rows, gone: set<string>, now: nat)
    ensures KeepsProvenance(rows, ForgetRows(rows, gone, now), {}, None)
    ensures KeepsProvenance(rows, rows, {}, None)
  {
  }
}
