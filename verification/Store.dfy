/** What the shim keeps locally: blobs on disk, results and provenance in an index beside them. */
module Store {
  import opened Bytes
  import opened Lexicographic
  import opened Options
  import opened Sorting
  import opened Sums

  type Hash = string

  /** An index row. It outlives the bytes it describes: `bundle` is how they are fetched again. */
  datatype Row = Row(size: nat, bundle: Option<string>, present: bool, seen: nat)

  datatype BlobFile = BlobFile(data: Bytes, used: nat)

  /** A kept result: the pointer bytes as the bucket holds them. */
  datatype Kept = Kept(pointer: Bytes, seen: nat)

  datatype Blob = Blob(digest: Digest, data: Bytes)

  /** What reading a blob comes to; a name that is no digest is refused. */
  datatype Read = NoDigest | Missing | Content(data: Bytes)

  /** A row the index can afford to lose. */
  datatype Losable = LosableBlob(hash: Hash) | LosableResult(action: Hash)

  type Rows = map<Hash, Row>
  type Files = map<Hash, BlobFile>
  type Results = map<Hash, Kept>

  function Present(rows: Rows): set<Hash> {
    set hash | hash in rows && rows[hash].present
  }

  /** Every row has the size its hash stands for. */
  ghost predicate Sized(rows: Rows, sizeOf: Hash -> nat) {
    forall hash :: hash in rows ==> rows[hash].size == sizeOf(hash)
  }

  // What each statement the store runs does to the index.

  /** `INSERT ... ON CONFLICT DO UPDATE SET present = 1, bundle = COALESCE(?, bundle), seen = ?`. The
      size of a row that is already there is left alone. */
  function Upsert(rows: Rows, digest: Digest, bundle: Option<string>, now: nat): Rows {
    rows[digest.hash :=
         if digest.hash in rows then
           rows[digest.hash].(present := true, seen := now,
                              bundle := if bundle.Some? then bundle else rows[digest.hash].bundle)
         else Row(digest.size, bundle, true, now)]
  }

  /** `INSERT ... ON CONFLICT DO UPDATE SET bundle = ?, seen = ?`. */
  function Attribute(rows: Rows, digest: Digest, bundle: string, now: nat): Rows {
    rows[digest.hash :=
         if digest.hash in rows then rows[digest.hash].(bundle := Some(bundle), seen := now)
         else Row(digest.size, Some(bundle), false, now)]
  }

  /** Dropping bytes keeps the rows, dated from now. */
  function ForgetRows(rows: Rows, gone: set<Hash>, now: nat): Rows {
    map hash | hash in rows
      :: if hash in gone && rows[hash].present then rows[hash].(present := false, seen := now) else rows[hash]
  }

  lemma ForgetOne(before: Rows, gone: set<Hash>, one: Hash, now: nat, sizeOf: Hash -> nat)
    requires Sized(before, sizeOf)
    ensures var rows := ForgetRows(before, gone, now);
            if one in rows && rows[one].present then
              && ForgetRows(before, gone + {one}, now) == rows[one := rows[one].(present := false, seen := now)]
              && Sum((gone + {one}) * Present(before), sizeOf) == Sum(gone * Present(before), sizeOf) + rows[one].size
            else
              && ForgetRows(before, gone + {one}, now) == rows
              && Sum((gone + {one}) * Present(before), sizeOf) == Sum(gone * Present(before), sizeOf)
  {
    var present := Present(before);
    if one in present && one !in gone {
      assert (gone + {one}) * present == gone * present + {one};
      SumWith(gone * present, sizeOf, one);
    } else {
      assert (gone + {one}) * present == gone * present;
    }
  }

  lemma ForgetNothing(before: Rows, now: nat, sizeOf: Hash -> nat)
    ensures ForgetRows(before, {}, now) == before && Sum({} * Present(before), sizeOf) == 0
  {
    assert {} * Present(before) == {};
  }

  lemma ForgetKeepsCount(before: Rows, gone: set<Hash>, now: nat, sizeOf: Hash -> nat)
    requires Sized(before, sizeOf)
    ensures var rows := ForgetRows(before, gone, now);
            && Sized(rows, sizeOf) && Present(rows) == Present(before) - gone
            && Sum(Present(rows), sizeOf) == Sum(Present(before), sizeOf) - Sum(gone * Present(before), sizeOf)
  {
    var present := Present(before);
    SumOfSubset(gone * present, present, sizeOf);
    assert present - gone * present == present - gone;
  }

  // Eviction.

  function Used(files: Files, hash: Hash): nat {
    if hash in files then files[hash].used else 0
  }

  /** Least recently used first, by the file's own timestamp, ties by hash. */
  predicate UsedNoLater(files: Files, a: Hash, b: Hash) {
    Used(files, a) < Used(files, b) || (Used(files, a) == Used(files, b) && !Before(b, a))
  }

  lemma UseRanks(files: Files)
    ensures Ranks((a: Hash, b: Hash) => UsedNoLater(files, a, b))
  {
    forall a: Hash, b: Hash, c: Hash
      ensures UsedNoLater(files, a, b) || UsedNoLater(files, b, a)
      ensures UsedNoLater(files, a, b) && UsedNoLater(files, b, c) ==> UsedNoLater(files, a, c)
    {
      hide Before;
      BeforeIsTotal(a, b, c);
      BeforeIsTotal(b, c, a);
      BeforeIsTotal(c, a, b);
      BeforeIsTotal(c, b, a);
    }
  }

  /** The blobs an eviction may drop: bytes worth something, and not wanted by the caller. */
  function Candidates(rows: Rows, files: Files, keeping: set<Hash>): set<Hash> {
    set hash | hash in rows && rows[hash].present && rows[hash].size > 0 && hash !in keeping && hash in files
  }

  lemma CandidatesLeft(rows: Rows, files: Files, keeping: set<Hash>, gone: set<Hash>, now: nat)
    ensures Candidates(ForgetRows(rows, gone, now), files - gone, keeping) == Candidates(rows, files, keeping) - gone
  {
  }

  /** The blobs dropped are the least recently used, and no more of them than are needed. */
  ghost predicate EvictsLeastUsed(files: Files, candidates: set<Hash>, going: seq<Hash>, over: int, sizeOf: Hash -> nat) {
    && Distinct(going) && Elements(going) <= candidates
    && (forall i, j :: 0 <= i < j < |going| ==> UsedNoLater(files, going[i], going[j]))
    && (forall gone, kept :: gone in going && kept in candidates && kept !in going ==> UsedNoLater(files, gone, kept))
    && (Sum(Elements(going), sizeOf) >= over || Elements(going) == candidates)
    && (going != [] ==> Sum(Elements(going[..|going| - 1]), sizeOf) < over)
  }

  /** What an eviction drops: blobs that are here, worth something and not being kept, each used before, or
      at the same time as but by name before, any other such blob that stays. The empty blob always stays. */
  lemma LeastUsedGoFirst(rows: Rows, files: Files, keeping: set<Hash>, going: seq<Hash>, over: int, sizeOf: Hash -> nat,
                         gone: Hash, kept: Hash)
    requires EvictsLeastUsed(files, Candidates(rows, files, keeping), going, over, sizeOf) && gone in going
    ensures gone in rows && rows[gone].present && rows[gone].size > 0 && gone !in keeping && gone in files
    ensures kept in rows && rows[kept].present && rows[kept].size > 0 && kept !in keeping && kept in files && kept !in going ==>
              files[gone].used < files[kept].used || (files[gone].used == files[kept].used && Before(gone, kept))
  {
    hide Before;
    assert gone in Elements(going);
    if kept in Candidates(rows, files, keeping) && kept !in going {
      BeforeIsTotal(gone, kept, gone);
    }
  }

  /** What the row bound takes: rows of absent blobs, and results, each seen no later than any that stay. */
  lemma OldestGoFirst(rows: Rows, results: Results, going: seq<Losable>, over: int, gone: Losable, kept: Losable)
    requires DropsOldestRows(rows, results, going, over) && gone in going
    ensures match gone
            case LosableBlob(hash) => hash in rows && !rows[hash].present
            case LosableResult(action) => action in results
    ensures kept !in going && kept.LosableBlob? && kept.hash in rows && !rows[kept.hash].present ==>
              if gone.LosableBlob? then gone.hash in rows && rows[gone.hash].seen <= rows[kept.hash].seen
              else gone.action in results && results[gone.action].seen <= rows[kept.hash].seen
    ensures kept !in going && kept.LosableResult? && kept.action in results ==>
              if gone.LosableBlob? then gone.hash in rows && rows[gone.hash].seen <= results[kept.action].seen
              else gone.action in results && results[gone.action].seen <= results[kept.action].seen
  {
    assert gone in Elements(going);
    assert gone in Droppable(rows, results);
  }

  /** Dropping bytes dates their rows from then, and touches nothing else of any row. */
  lemma ForgottenRow(rows: Rows, gone: set<Hash>, now: nat, hash: Hash)
    requires hash in rows
    ensures var after := ForgetRows(rows, gone, now);
            && after.Keys == rows.Keys
            && (if hash in gone && rows[hash].present then !after[hash].present && after[hash].seen == now
                else after[hash].present == rows[hash].present && after[hash].seen == rows[hash].seen)
            && after[hash].size == rows[hash].size && after[hash].bundle == rows[hash].bundle
  {
  }

  function Droppable(rows: Rows, results: Results): set<Losable> {
    (set hash | hash in rows && !rows[hash].present :: LosableBlob(hash)) +
    (set action | action in results :: LosableResult(action))
  }

  function SeenAt(rows: Rows, results: Results, one: Losable): nat {
    match one
    case LosableBlob(hash) => if hash in rows then rows[hash].seen else 0
    case LosableResult(action) => if action in results then results[action].seen else 0
  }

  /** The rows dropped are the oldest of those the index can afford to lose. */
  ghost predicate DropsOldestRows(rows: Rows, results: Results, going: seq<Losable>, over: int) {
    && Distinct(going) && Elements(going) <= Droppable(rows, results)
    && (forall gone, kept :: gone in going && kept in Droppable(rows, results) && kept !in going ==>
          SeenAt(rows, results, gone) <= SeenAt(rows, results, kept))
    && (over <= 0 ==> going == [])
    && (over > 0 ==> |going| == over || (Elements(going) == Droppable(rows, results) && |going| < over))
  }

  /** What an index that had grown to this holds once it has dropped the rows it has no room for. */
  ghost predicate AfterEviction(rows: Rows, results: Results, maxRows: nat, leftRows: Rows, leftResults: Results) {
    exists lost: seq<Losable> ::
      && DropsOldestRows(rows, results, lost, |rows| + |results| - maxRows)
      && leftRows == rows - LostBlobs(lost) && leftResults == results - LostResults(lost)
  }

  lemma WhatWasEvicted(rows: Rows, results: Results, maxRows: nat, leftRows: Rows, leftResults: Results)
    returns (lost: seq<Losable>)
    requires AfterEviction(rows, results, maxRows, leftRows, leftResults)
    ensures DropsOldestRows(rows, results, lost, |rows| + |results| - maxRows)
    ensures leftRows == rows - LostBlobs(lost) && leftResults == results - LostResults(lost)
  {
    hide DropsOldestRows, LostBlobs, LostResults;
    lost :| DropsOldestRows(rows, results, lost, |rows| + |results| - maxRows)
      && leftRows == rows - LostBlobs(lost) && leftResults == results - LostResults(lost);
  }

  /** The index has room for some more blobs and results. */
  predicate HasRoom(rows: Rows, batch: set<Hash>, results: Results, actions: set<Hash>, maxRows: nat) {
    |rows.Keys + batch| + |results.Keys + actions| <= maxRows
  }

  /** An index with room for all of its rows keeps them. */
  lemma RoomForAll(rows: Rows, results: Results, maxRows: nat, leftRows: Rows, leftResults: Results)
    requires AfterEviction(rows, results, maxRows, leftRows, leftResults) && |rows| + |results| <= maxRows
    ensures leftRows == rows && leftResults == results
  {
    var lost: seq<Losable> :| DropsOldestRows(rows, results, lost, |rows| + |results| - maxRows)
      && leftRows == rows - LostBlobs(lost) && leftResults == results - LostResults(lost);
    assert lost == [];
    assert LostBlobs([]) == {} && LostResults([]) == {};
  }

  ghost predicate GenuineFiles(files: Files, sha: Bytes -> Hash, sizeOf: Hash -> nat) {
    forall hash :: hash in files ==> sha(files[hash].data) == hash && |files[hash].data| == sizeOf(hash)
  }

  /** Bytes that hash to the name they are filed under have the size the name stands for. */
  ghost predicate SizedFiles(files: Files, sha: Bytes -> Hash, sizeOf: Hash -> nat) {
    forall hash :: hash in files && sha(files[hash].data) == hash ==> |files[hash].data| == sizeOf(hash)
  }

  /** The store of one shim, used by one thread at a time. */
  class Store {
    const sha: Bytes -> Hash
    const maxBytes: nat
    const maxRows: nat
    /** How many bytes an eviction leaves held. */
    const evictedDownTo: nat
    /** The size each hash stands for. */
    ghost const sizeOf: Hash -> nat

    var rows: Rows
    var files: Files
    var results: Results
    var held: int

    /** The byte count agrees with the index. */
    ghost predicate Counted()
      reads this
    {
      evictedDownTo <= maxBytes && Sized(rows, sizeOf) && held == Sum(Present(rows), sizeOf)
    }

    /** The index agrees with the files. */
    ghost predicate Settled()
      reads this
    {
      Counted() && files.Keys == Present(rows)
    }

    /** Every file holds the bytes it is named after. */
    ghost predicate Genuine()
      reads this
    {
      GenuineFiles(files, sha, sizeOf)
    }

    /** A hash stands for one size among the files too, those aside that do not hash to their names. */
    ghost predicate OneSize()
      reads this
    {
      SizedFiles(files, sha, sizeOf)
    }

    /** Open what is on disk: settle it, and make sure the empty blob is there, which clients take
        for granted. */
    constructor (sha: Bytes -> Hash, ghost sizeOf: Hash -> nat, maxBytes: nat, maxRows: nat, evictedDownTo: nat,
                 rows: Rows, files: Files, results: Results, now: nat)
      requires evictedDownTo <= maxBytes && Sized(rows, sizeOf) && sizeOf(sha([])) == 0
      ensures this.sha == sha && this.sizeOf == sizeOf && this.maxBytes == maxBytes && this.maxRows == maxRows
      ensures Settled() && held <= maxBytes
      ensures Here(this.files, DigestOf(sha, []))
      ensures SizedFiles(files, sha, sizeOf) ==> OneSize()
      ensures GenuineFiles(files, sha, sizeOf) ==> Genuine()
      ensures KeepsProvenance(rows, this.rows, {sha([])}, None)
    {
      this.sha, this.sizeOf, this.maxBytes, this.maxRows, this.evictedDownTo := sha, sizeOf, maxBytes, maxRows, evictedDownTo;
      this.rows, this.files, this.results, this.held := rows, files, results, 0;
      new;
      hide ReconciledRows, ReconciledFiles, KeepsProvenance, Sized, GenuineFiles, SizedFiles;
      Reconcile();
      ReconciledIsNoWorse(rows, files, sha, sizeOf);
      ghost var settled := this.rows;
      var empty := Blob(DigestOf(sha, []), []);
      var ok := PutBlobs([empty], None, now);
      assert Hashes([empty]) == {sha([])};
      SumOfNoBytes({sha([])}, sizeOf);
      assert Checked(sha, empty);
      assert empty in [empty];
      ReconciledThenStored(rows, files.Keys, settled, this.rows, {sha([])});
    }

    /** Drop bytes and keep their rows. */
    method Forget(hashes: seq<Hash>, now: nat)
      requires Counted()
      modifies this`rows, this`files, this`held
      ensures Counted()
      ensures rows == ForgetRows(old(rows), Elements(hashes), now)
      ensures files == old(files) - Elements(hashes)
      ensures held == old(held) - Sum(Elements(hashes) * Present(old(rows)), sizeOf)
      ensures old(Settled()) ==> Settled()
    {
      hide ForgetRows, Present, Sized;
      var freed := 0;
      ghost var before := rows;
      ForgetNothing(before, now, sizeOf);
      assert Elements(hashes[..0]) == {};
      for i := 0 to |hashes|
        invariant rows == ForgetRows(before, Elements(hashes[..i]), now)
        invariant files == old(files) - Elements(hashes[..i])
        invariant freed == Sum(Elements(hashes[..i]) * Present(before), sizeOf)
        invariant held == old(held)
      {
        var one := hashes[i];
        assert Elements(hashes[..i + 1]) == Elements(hashes[..i]) + {one};
        ForgetOne(before, Elements(hashes[..i]), one, now, sizeOf);
        files := files - {one};
        if one in rows && rows[one].present {
          freed := freed + rows[one].size;
          rows := rows[one := rows[one].(present := false, seen := now)];
        }
      }
      assert hashes[..|hashes|] == hashes;
      held := held - freed;
      ForgetKeepsCount(before, Elements(hashes), now, sizeOf);
    }

    /** Drop the least recently used blobs until `arriving` more bytes fit well inside the bound. */
    method Evict(arriving: nat, keeping: set<Hash>, now: nat) returns (going: seq<Hash>)
      requires Settled()
      modifies this`rows, this`files, this`held
      ensures Settled()
      ensures forall hash :: hash in going ==>
                hash in old(rows) && old(rows)[hash].present && old(rows)[hash].size > 0 && hash !in keeping && hash in old(files)
      ensures EvictsLeastUsed(old(files), Candidates(old(rows), old(files), keeping), going,
                              if old(held) + arriving <= maxBytes then 0 else old(held) + arriving - evictedDownTo, sizeOf)
      ensures rows == ForgetRows(old(rows), Elements(going), now)
      ensures files == old(files) - Elements(going)
      ensures held == old(held) - Sum(Elements(going), sizeOf)
      ensures held + arriving <= maxBytes || Candidates(rows, files, keeping) == {}
    {
      hide ForgetRows, Sorted, Ranks, Used, UsedNoLater, EvictsLeastUsed;
      if held + arriving <= maxBytes {
        going := [];
        EvictsNothing(files, Candidates(rows, files, keeping), sizeOf);
        ForgetNothing(rows, now, sizeOf);
        assert Elements(going) == {};
        return;
      }
      var candidates := Candidates(rows, files, keeping);
      var over := held + arriving - evictedDownTo;
      going := LeastUsed(rows, files, candidates, over, sizeOf);
      ghost var dropped := Elements(going);
      EvictsCandidates(files, candidates, going, over, sizeOf);
      assert dropped * Present(rows) == dropped;
      assert forall hash :: hash in going ==> hash in dropped && hash in candidates;
      CandidatesLeft(rows, files, keeping, dropped, now);
      Forget(going, now);
    }

    method DeleteRows(going: seq<Losable>)
      modifies this`rows, this`results
      ensures rows == old(rows) - LostBlobs(going)
      ensures results == old(results) - LostResults(going)
    {
      hide LostBlobs, LostResults;
      NothingLost(rows, results, 0);
      assert going[..0] == [];
      for i := 0 to |going|
        invariant rows == old(rows) - LostBlobs(going[..i])
        invariant results == old(results) - LostResults(going[..i])
      {
        LostNext(going, i);
        match going[i] {
          case LosableBlob(hash) => rows := rows - {hash};
          case LosableResult(action) => results := results - {action};
        }
      }
      assert going[..|going|] == going;
    }

    /** Drop the oldest rows the index can afford to lose, once it holds too many. */
    method EvictRows() returns (going: seq<Losable>)
      requires Counted()
      modifies this`rows, this`results
      ensures Counted() && Present(rows) == Present(old(rows))
      ensures old(Settled()) ==> Settled()
      ensures DropsOldestRows(old(rows), old(results), going, |old(rows)| + |old(results)| - maxRows)
      ensures rows == old(rows) - LostBlobs(going)
      ensures results == old(results) - LostResults(going)
      ensures AfterEviction(old(rows), old(results), maxRows, rows, results)
      ensures |rows| + |results| <= maxRows || Droppable(rows, results) == {}
    {
      hide DropsOldestRows, Sized, LostBlobs, LostResults, Droppable, Present;
      var over := |rows| + |results| - maxRows;
      if over <= 0 {
        NothingLost(rows, results, over);
        return [];
      }
      going := OldestRows(rows, results, over);
      ghost var before, kept := rows, results;
      DroppingRowsKeepsPresent(before, kept, going, over);
      DeleteRows(going);
      SizedSubset(before, rows, sizeOf);
    }

    method CountMissing(blobs: seq<Blob>) returns (arriving: nat)
      requires OneEach(blobs) && SizedBlobs(blobs, sizeOf)
      ensures arriving == Sum(Hashes(blobs) - Present(rows), sizeOf)
    {
      arriving := 0;
      ghost var absent := Hashes(blobs[..0]) - Present(rows);
      assert absent == {};
      for i := 0 to |blobs|
        invariant arriving == Sum(Hashes(blobs[..i]) - Present(rows), sizeOf)
      {
        var hash := blobs[i].digest.hash;
        HashesNext(blobs, i);
        if !(hash in rows && rows[hash].present) {
          assert Hashes(blobs[..i + 1]) - Present(rows) == Hashes(blobs[..i]) - Present(rows) + {hash};
          SumWith(Hashes(blobs[..i]) - Present(rows), sizeOf, hash);
          arriving := arriving + blobs[i].digest.size;
        } else {
          assert Hashes(blobs[..i + 1]) - Present(rows) == Hashes(blobs[..i]) - Present(rows);
        }
      }
      assert blobs[..|blobs|] == blobs;
    }

    method WriteFiles(blobs: seq<Blob>, now: nat)
      requires OneEach(blobs)
      modifies this`files
      ensures files == old(files) + FilesOf(blobs, now)
    {
      assert FilesOf(blobs[..0], now) == map[];
      hide FilesOf, OneEach;
      for i := 0 to |blobs|
        invariant files == old(files) + FilesOf(blobs[..i], now)
      {
        FilesOfNext(blobs, i, now);
        files := files[blobs[i].digest.hash := BlobFile(blobs[i].data, now)];
      }
      assert blobs[..|blobs|] == blobs;
    }

    /** The transaction that makes written blobs count. */
    method Commit(blobs: seq<Blob>, bundle: Option<string>, now: nat)
      requires Counted() && OneEach(blobs) && SizedBlobs(blobs, sizeOf)
      modifies this`rows, this`held
      ensures Counted() && Present(rows) == Present(old(rows)) + Hashes(blobs)
      ensures Upserted(old(rows), rows, Hashes(blobs), bundle, now)
      ensures held == old(held) + Sum(Hashes(blobs) - Present(old(rows)), sizeOf)
    {
      hide Hashes, Upsert, Upserted, Present, Sized;
      var arriving := CountMissing(blobs);
      held := held + arriving;
      ghost var before := rows;
      for i := 0 to |blobs|
        invariant rows == UpsertAll(before, blobs[..i], bundle, now)
        invariant held == old(held) + arriving
      {
        assert blobs[..i + 1][..i] == blobs[..i];
        rows := Upsert(rows, blobs[i].digest, bundle, now);
      }
      assert blobs[..|blobs|] == blobs;
      UpsertAllHolds(before, blobs, bundle, now, sizeOf);
      UpsertedPresent(before, rows, Hashes(blobs), bundle, now);
      SumOfParts(Present(before), Hashes(blobs) - Present(before), sizeOf);
      assert Present(before) + (Hashes(blobs) - Present(before)) == Present(rows);
      assert held == Sum(Present(rows), sizeOf);
      assert Sized(rows, sizeOf);
    }

    /** Make room for a batch, out of anything but the batch itself. */
    method MakeRoom(blobs: seq<Blob>, now: nat) returns (going: seq<Hash>)
      requires Settled() && OneEach(blobs) && SizedBlobs(blobs, sizeOf)
      modifies this`rows, this`files, this`held
      ensures Settled()
      ensures rows == ForgetRows(old(rows), Elements(going), now)
      ensures files == old(files) - Elements(going)
      ensures var arriving := Sum(Hashes(blobs) - Present(rows), sizeOf);
              && arriving == Sum(Hashes(blobs) - Present(old(rows)), sizeOf)
              && (held + arriving <= maxBytes || held + arriving == Sum(Hashes(blobs), sizeOf))
              && (old(held) + arriving <= maxBytes ==> going == [] && rows == old(rows) && held == old(held))
    {
      hide ForgetRows, EvictsLeastUsed, Candidates, Present, Sized;
      var arriving := CountMissing(blobs);
      ghost var rows0, files0, held0 := rows, files, held;
      going := Evict(arriving, Hashes(blobs), now);
      ghost var over := if held0 + arriving <= maxBytes then 0 else held0 + arriving - evictedDownTo;
      ghost var candidates := Candidates(rows0, files0, Hashes(blobs));
      EvictsCandidates(files0, candidates, going, over, sizeOf);
      BatchKept(rows0, files0, Hashes(blobs), going, now, held, arriving, maxBytes, evictedDownTo, sizeOf);
      if held0 + arriving <= maxBytes {
        NothingOver(files0, candidates, going, sizeOf);
        ForgetNothing(rows0, now, sizeOf);
        assert Elements(going) == {};
      }
    }

    /** Only a batch larger than the whole bound is still over it after its commit. */
    method SettleBound(now: nat) returns (more: seq<Hash>, lost: seq<Losable>)
      requires Settled()
      modifies this`rows, this`files, this`results, this`held
      ensures Settled() && held <= maxBytes
      ensures rows == ForgetRows(old(rows), Elements(more), now) - LostBlobs(lost)
      ensures files == old(files) - Elements(more)
      ensures results == old(results) - LostResults(lost)
      ensures AfterEviction(ForgetRows(old(rows), Elements(more), now), old(results), maxRows, rows, results)
      ensures old(held) <= maxBytes ==> more == [] && Present(rows) == Present(old(rows))
    {
      hide ForgetRows, EvictsLeastUsed, DropsOldestRows, Candidates, Present, Sized, LostBlobs, LostResults, Droppable;
      ghost var rows0, files0 := rows, files;
      more := Evict(0, {}, now);
      LastEviction(rows, files, held, maxBytes, sizeOf);
      if old(held) <= maxBytes {
        NothingOver(files0, Candidates(rows0, files0, {}), more, sizeOf);
        ForgetNothing(rows0, now, sizeOf);
        assert Elements(more) == {};
      }
      lost := EvictRows();
    }

    /** Store blobs under the digests they were filed under, if that is what they all hash to. The
        room is made before writing, and never from the blobs being stored. */
    method PutBlobs(blobs: seq<Blob>, bundle: Option<string>, now: nat) returns (ok: bool)
      requires Settled() && OneEach(blobs) && SizedBlobs(blobs, sizeOf)
      modifies this`rows, this`files, this`results, this`held
      ensures ok <==> forall i :: 0 <= i < |blobs| ==> Checked(sha, blobs[i])
      ensures !ok ==> unchanged(this)
      ensures ok ==> Settled() && held <= maxBytes
      ensures ok && old(Genuine()) ==> Genuine()
      ensures ok && old(OneSize()) ==> OneSize()
      ensures ok && Sum(Hashes(blobs), sizeOf) <= maxBytes ==>
                Hashes(blobs) <= Present(rows) && Holds(files, blobs)
      ensures ok ==> KeepsProvenance(old(rows), rows, Hashes(blobs), bundle)
      ensures ok ==> FewerOthers(old(files), files, Hashes(blobs)) && FewerResults(old(results), results)
      ensures ok && HasRoom(old(rows), Hashes(blobs), old(results), {}, maxRows) ==>
                rows.Keys == old(rows).Keys + Hashes(blobs) && results == old(results)
      ensures ok && old(held) + Sum(Hashes(blobs) - Present(old(rows)), sizeOf) <= maxBytes ==>
                Present(rows) == Present(old(rows)) + Hashes(blobs)
    {
      for i := 0 to |blobs|
        invariant forall j :: 0 <= j < i ==> Checked(sha, blobs[j])
      {
        if !Checked(sha, blobs[i]) {
          return false;
        }
      }
      PutChecked(blobs, bundle, now);
      ok := true;
    }

    /** The steps of storing a batch, and what each of them left: the blobs that made room, the rows
        before and after the commit, the blobs and the rows that went afterwards. */
    method StoreBatch(blobs: seq<Blob>, bundle: Option<string>, now: nat)
      returns (ghost gone: set<Hash>, ghost mid: Rows, ghost stored: Rows, ghost more: set<Hash>, ghost lost: set<Hash>)
      requires Settled() && OneEach(blobs) && SizedBlobs(blobs, sizeOf)
      modifies this`rows, this`files, this`results, this`held
      ensures Settled() && held <= maxBytes
      ensures mid == ForgetRows(old(rows), gone, now) && Upserted(mid, stored, Hashes(blobs), bundle, now)
      ensures Sized(stored, sizeOf)
      ensures rows == ForgetRows(stored, more, now) - lost
      ensures files == old(files) - gone + FilesOf(blobs, now) - more
      ensures FewerResults(old(results), results)
      ensures AfterEviction(ForgetRows(stored, more, now), old(results), maxRows, rows, results)
      ensures Sum(Hashes(blobs), sizeOf) <= maxBytes ==> more == {} && Hashes(blobs) <= Present(rows)
      ensures old(held) + Sum(Hashes(blobs) - Present(old(rows)), sizeOf) <= maxBytes ==>
                Present(rows) == Present(old(rows)) + Hashes(blobs)
    {
      hide Upserted, Hashes, FilesOf, ForgetRows, Present, Sized, OneEach, SizedBlobs, FewerResults, LostBlobs, LostResults,
           AfterEviction, DropsOldestRows;
      ghost var results0 := results;
      var going := MakeRoom(blobs, now);
      gone, mid := Elements(going), rows;
      ghost var files1 := files;
      WriteFiles(blobs, now);
      Commit(blobs, bundle, now);
      stored := rows;
      BatchWritten(mid, files1, stored, blobs, bundle, now);
      var last, dropped := SettleBound(now);
      more, lost := Elements(last), LostBlobs(dropped);
      ResultsLeft(results0, LostResults(dropped));
    }

    method PutChecked(blobs: seq<Blob>, bundle: Option<string>, now: nat)
      requires Settled() && OneEach(blobs) && SizedBlobs(blobs, sizeOf)
      requires forall i :: 0 <= i < |blobs| ==> Checked(sha, blobs[i])
      modifies this`rows, this`files, this`results, this`held
      ensures Settled() && held <= maxBytes
      ensures old(Genuine()) ==> Genuine()
      ensures old(OneSize()) ==> OneSize()
      ensures Sum(Hashes(blobs), sizeOf) <= maxBytes ==> Hashes(blobs) <= Present(rows) && Holds(files, blobs)
      ensures KeepsProvenance(old(rows), rows, Hashes(blobs), bundle)
      ensures FewerOthers(old(files), files, Hashes(blobs)) && FewerResults(old(results), results)
      ensures HasRoom(old(rows), Hashes(blobs), old(results), {}, maxRows) ==>
                rows.Keys == old(rows).Keys + Hashes(blobs) && results == old(results)
      ensures old(held) + Sum(Hashes(blobs) - Present(old(rows)), sizeOf) <= maxBytes ==>
                Present(rows) == Present(old(rows)) + Hashes(blobs)
    {
      hide Upserted, Hashes, FilesOf, ForgetRows, Present, Sized, Checked, OneEach, SizedBlobs, Sum,
           KeepsProvenance, FewerOthers, FewerResults, Holds, LostBlobs, LostResults, GenuineFiles, SizedFiles, AfterEviction;
      ghost var rows0, files0 := rows, files;
      ghost var gone, mid, stored, more, lost := StoreBatch(blobs, bundle, now);
      Provenance(rows0, gone, mid, stored, Hashes(blobs), more, lost, bundle, now);
      OnlyBatchWritten(files0, gone, blobs, more, now);
      if GenuineFiles(files0, sha, sizeOf) {
        AllGenuine(files0, gone, blobs, more, now, sha, sizeOf);
      }
      if SizedFiles(files0, sha, sizeOf) {
        StillSized(files0, gone, blobs, more, now, sha, sizeOf);
      }
      if more == {} {
        BatchHeld(files0, gone, blobs, now);
      }
      BatchKeys(rows0, gone, mid, stored, Hashes(blobs), more, bundle, now);
      if HasRoom(rows0, Hashes(blobs), old(results), {}, maxRows) {
        assert old(results).Keys + {} == old(results).Keys;
        ghost var settled := ForgetRows(stored, more, now);
        assert |settled| == |settled.Keys|;
        RoomForAll(settled, old(results), maxRows, rows, results);
      }
    }

    /** The bytes filed under this digest, if they still hash to it. Bytes that do not are dropped. */
    method ReadBlob(digest: Digest, now: nat) returns (found: Read)
      requires Settled()
      modifies this`rows, this`files, this`held
      ensures Settled()
      ensures found.NoDigest? <==> !IsSha256Hex(digest.hash)
      ensures found.Content? ==>
                sha(found.data) == digest.hash && digest.hash in old(files) && found.data == old(files)[digest.hash].data
      ensures found.Missing? ==> digest.hash !in files
      ensures found.Missing? && digest.hash in old(files) ==> sha(old(files)[digest.hash].data) != digest.hash
      ensures var gone := if found.Missing? then {digest.hash} else {};
              rows == ForgetRows(old(rows), gone, now) && SameBytes(old(files) - gone, files)
      ensures files == if found.Content? then old(files)[digest.hash := BlobFile(found.data, now)]
                       else if found.Missing? then old(files) - {digest.hash} else old(files)
      ensures held <= old(held)
      ensures old(OneSize()) ==> OneSize()
      ensures old(Genuine()) ==> Genuine() && (found.Missing? ==> digest.hash !in old(files) && rows == old(rows))
    {
      hide ForgetRows, Present, Sized, IsSha256Hex;
      ForgetNothing(rows, now, sizeOf);
      if !IsSha256Hex(digest.hash) {
        return NoDigest;
      }
      if digest.hash !in files {
        ForgetAbsent(rows, files, digest.hash, now);
        return Missing;
      }
      var data := files[digest.hash].data;
      if sha(data) != digest.hash {
        assert Elements([digest.hash]) == {digest.hash};
        Forget([digest.hash], now);
        return Missing;
      }
      files := files[digest.hash := BlobFile(data, now)];
      return Content(data);
    }

    /** Whether a file of this digest's size is here, counted as used, like a read. */
    method Use(digest: Digest, now: nat) returns (here: bool)
      requires Settled()
      modifies this`files
      ensures Settled() && (old(Genuine()) ==> Genuine()) && (old(OneSize()) ==> OneSize())
      ensures here <==> Here(old(files), digest)
      ensures files == if here then old(files)[digest.hash := old(files)[digest.hash].(used := now)] else old(files)
      ensures SameBytes(old(files), files)
    {
      hide Present;
      if digest.hash !in files || |files[digest.hash].data| != digest.size {
        return false;
      }
      files := files[digest.hash := files[digest.hash].(used := now)];
      return true;
    }

    /** Which of these are here, or nothing if one of them names no digest. */
    method HasBlobs(digests: seq<Digest>, now: nat) returns (answer: Option<seq<bool>>)
      requires Settled()
      modifies this`files
      ensures Settled() && (old(Genuine()) ==> Genuine()) && (old(OneSize()) ==> OneSize())
      ensures answer.None? <==> exists i :: 0 <= i < |digests| && !IsSha256Hex(digests[i].hash)
      ensures answer.Some? ==>
                |answer.value| == |digests| && forall i :: 0 <= i < |digests| ==> answer.value[i] == Here(old(files), digests[i])
      ensures SameBytes(old(files), files)
      ensures answer.Some? ==> CountedAsUsed(old(files), files, digests, now)
    {
      hide Present, IsSha256Hex, CountedAsUsed;
      var here := [];
      NothingUsed(files, digests, now);
      for i := 0 to |digests|
        invariant CountedAsUsed(old(files), files, digests[..i], now)
        invariant Settled() && (old(Genuine()) ==> Genuine()) && (old(OneSize()) ==> OneSize())
        invariant forall j :: 0 <= j < i ==> IsSha256Hex(digests[j].hash)
        invariant |here| == i && forall j :: 0 <= j < i ==> here[j] == Here(old(files), digests[j])
        invariant SameBytes(old(files), files)
      {
        if !IsSha256Hex(digests[i].hash) {
          return None;
        }
        ghost var before := files;
        var one := Use(digests[i], now);
        UsedOneMore(old(files), before, files, digests, i, now);
        here := here + [one];
      }
      assert digests[..|digests|] == digests;
      return Some(here);
    }

    method AttributeRows(digests: seq<Digest>, bundle: string, now: nat)
      modifies this`rows
      ensures rows == AttributeAll(old(rows), digests, bundle, now)
    {
      hide Attribute;
      for i := 0 to |digests|
        invariant rows == AttributeAll(old(rows), digests[..i], bundle, now)
      {
        assert digests[..i + 1][..i] == digests[..i];
        rows := Attribute(rows, digests[i], bundle, now);
      }
      assert digests[..|digests|] == digests;
    }

    /** Record which bundle these blobs arrived in, whether or not their bytes are still here. */
    method RememberAll(digests: seq<Digest>, bundle: string, now: nat)
      requires Settled() && forall digest :: digest in digests ==> digest.hash in rows || digest.size == sizeOf(digest.hash)
      modifies this`rows, this`results
      ensures Settled() && Present(rows) == Present(old(rows))
      ensures KeepsProvenance(old(rows), rows, HashesOf(digests), Some(bundle))
      ensures FewerResults(old(results), results)
      ensures AfterEviction(AttributeAll(old(rows), digests, bundle, now), old(results), maxRows, rows, results)
    {
      hide Present, Sized, KeepsProvenance, FewerResults, LostBlobs, LostResults, Droppable, DropsOldestRows,
           AttributeAll, HashesOf;
      AttributeAllHolds(rows, digests, bundle, now, sizeOf);
      ghost var before := rows;
      AttributeRows(digests, bundle, now);
      ghost var mid, results0 := rows, results;
      var lost := EvictRows();
      AttributedLeft(before, mid, LostBlobs(lost), digests, bundle);
      ResultsLeft(results0, LostResults(lost));
    }

    method BundleOf(digest: Digest) returns (bundle: Option<string>)
      ensures bundle == if digest.hash in rows then rows[digest.hash].bundle else None
    {
      bundle := if digest.hash in rows then rows[digest.hash].bundle else None;
    }

    /** Every blob this store attributes to a bundle, present or not. */
    method MembersOf(bundle: string) returns (members: set<Hash>)
      ensures members == Attributed(rows, bundle)
    {
      members := Attributed(rows, bundle);
    }

    method PutResult(action: Hash, pointer: Bytes, now: nat)
      requires Settled()
      modifies this`rows, this`results
      ensures Settled() && Present(rows) == Present(old(rows))
      ensures KeepsProvenance(old(rows), rows, {}, None)
      ensures FewerResults(old(results)[action := Kept(pointer, now)], results)
      ensures AfterEviction(old(rows), old(results)[action := Kept(pointer, now)], maxRows, rows, results)
    {
      hide Present, Sized, KeepsProvenance, FewerResults, LostBlobs, LostResults, Droppable, DropsOldestRows;
      ghost var rows0 := rows;
      results := results[action := Kept(pointer, now)];
      ghost var results0 := results;
      var lost := EvictRows();
      RowsKept(rows0, LostBlobs(lost));
      ResultsLeft(results0, LostResults(lost));
    }

    method Result(action: Hash) returns (pointer: Option<Bytes>)
      ensures pointer == if action in results then Some(results[action].pointer) else None
    {
      pointer := if action in results then Some(results[action].pointer) else None;
    }

    method DropResult(action: Hash)
      modifies this`results
      ensures results == old(results) - {action}
    {
      results := results - {action};
    }

    method SettleRows(missing: set<Hash>)
      requires missing <= Present(rows)
      modifies this`rows
      ensures rows == ReconciledRows(old(rows), old(rows).Keys - missing)
    {
      var todo := missing;
      NothingMissing(rows);
      while todo != {}
        invariant todo <= missing
        invariant rows == ReconciledRows(old(rows), old(rows).Keys - (missing - todo))
        decreases |todo|
      {
        var one :| one in todo;
        MissingOne(old(rows), missing - todo, one);
        assert missing - todo + {one} == missing - (todo - {one});
        rows := rows[one := rows[one].(present := false)];
        todo := todo - {one};
      }
      assert missing - {} == missing;
    }

    method RemoveFiles(orphans: set<Hash>)
      modifies this`files
      ensures files == old(files) - orphans
    {
      var todo := orphans;
      while todo != {}
        invariant todo <= orphans
        invariant files == old(files) - (orphans - todo)
        decreases |todo|
      {
        var one :| one in todo;
        files := files - {one};
        todo := todo - {one};
      }
    }

    method CountHeld(counted: set<Hash>) returns (total: nat)
      requires Sized(rows, sizeOf) && counted <= rows.Keys
      ensures total == Sum(counted, sizeOf)
    {
      total := 0;
      var todo := counted;
      assert counted - todo == {};
      while todo != {}
        invariant todo <= counted
        invariant total == Sum(counted - todo, sizeOf)
        decreases |todo|
      {
        var one :| one in todo;
        assert counted - (todo - {one}) == counted - todo + {one};
        SumWith(counted - todo, sizeOf, one);
        total := total + rows[one].size;
        todo := todo - {one};
      }
      assert counted - {} == counted;
    }

    /** Agree with the filesystem about what is actually here, whatever a kill left behind. */
    method Reconcile()
      requires evictedDownTo <= maxBytes && Sized(rows, sizeOf)
      modifies this`rows, this`files, this`held
      ensures Settled()
      ensures rows == ReconciledRows(old(rows), old(files).Keys)
      ensures files == ReconciledFiles(old(rows), old(files))
    {
      hide ReconciledRows, ReconciledFiles, Present, Sized;
      ghost var rows0, files0 := rows, files;
      var present, onDisk := Present(rows), files.Keys;
      SettleRows(present - onDisk);
      MissingSettled(rows0, files0);
      RemoveFiles(onDisk - present);
      OrphansGone(rows0, files0);
      ReconciledIsSized(rows0, onDisk, sizeOf);
      held := CountHeld(present * onDisk);
    }
  }

  lemma BatchKeys(before: Rows, gone: set<Hash>, mid: Rows, stored: Rows, batch: set<Hash>, more: set<Hash>,
                  bundle: Option<string>, now: nat)
    requires mid == ForgetRows(before, gone, now) && Upserted(mid, stored, batch, bundle, now)
    ensures ForgetRows(stored, more, now).Keys == before.Keys + batch
  {
  }

  lemma BatchHeld(files: Files, gone: set<Hash>, blobs: seq<Blob>, now: nat)
    requires OneEach(blobs)
    ensures Holds(files - gone + FilesOf(blobs, now) - {}, blobs)
  {
    FilesOfHolds(blobs, now);
  }

  function LostBlobs(going: seq<Losable>): set<Hash> {
    set one | one in going && one.LosableBlob? :: one.hash
  }

  function LostResults(going: seq<Losable>): set<Hash> {
    set one | one in going && one.LosableResult? :: one.action
  }

  lemma LostNext(going: seq<Losable>, i: nat)
    requires i < |going|
    ensures LostBlobs(going[..i + 1]) == LostBlobs(going[..i]) + LostBlobs([going[i]])
    ensures LostResults(going[..i + 1]) == LostResults(going[..i]) + LostResults([going[i]])
    ensures LostBlobs([going[i]]) == if going[i].LosableBlob? then {going[i].hash} else {}
    ensures LostResults([going[i]]) == if going[i].LosableResult? then {going[i].action} else {}
  {
    assert going[..i + 1] == going[..i] + [going[i]];
  }

  lemma SeenRanks(rows: Rows, results: Results)
    ensures Ranks((a: Losable, b: Losable) => SeenAt(rows, results, a) <= SeenAt(rows, results, b))
  {
    hide SeenAt;
  }

  /** The query behind row eviction: the oldest `limit` rows, in whatever order ties come. */
  method OldestRows(rows: Rows, results: Results, limit: int) returns (going: seq<Losable>)
    requires limit > 0
    ensures DropsOldestRows(rows, results, going, limit)
  {
    hide SeenAt, Ranks;
    var droppable := Droppable(rows, results);
    SeenRanks(rows, results);
    var oldest := Sort(droppable, (a: Losable, b: Losable) => SeenAt(rows, results, a) <= SeenAt(rows, results, b));
    going := if |oldest| < limit then oldest else oldest[..limit];
    OldestPrefix(rows, results, oldest, |going|);
    assert going == oldest[..|going|];
    assert |oldest| == limit ==> Elements(going) == droppable;
  }

  lemma OldestPrefix(rows: Rows, results: Results, oldest: seq<Losable>, n: nat)
    requires Sorted((a: Losable, b: Losable) => SeenAt(rows, results, a) <= SeenAt(rows, results, b), oldest)
    requires Distinct(oldest) && n <= |oldest|
    ensures Distinct(oldest[..n]) && Elements(oldest[..n]) <= Elements(oldest)
    ensures forall gone, kept :: gone in oldest[..n] && kept in oldest && kept !in oldest[..n] ==>
              SeenAt(rows, results, gone) <= SeenAt(rows, results, kept)
  {
    hide SeenAt;
    var leq := (a: Losable, b: Losable) => SeenAt(rows, results, a) <= SeenAt(rows, results, b);
    forall gone, kept | gone in oldest[..n] && kept in oldest && kept !in oldest[..n]
      ensures SeenAt(rows, results, gone) <= SeenAt(rows, results, kept)
    {
      var j :| 0 <= j < n && oldest[..n][j] == gone;
      assert oldest == oldest[..n] + oldest[n..];
      var k :| 0 <= k < |oldest[n..]| && oldest[n..][k] == kept;
      assert leq(oldest[j], oldest[n + k]);
    }
  }

  lemma SizedSubset(before: Rows, rows: Rows, sizeOf: Hash -> nat)
    requires Sized(before, sizeOf) && forall hash :: hash in rows ==> hash in before && rows[hash] == before[hash]
    ensures Sized(rows, sizeOf)
  {
  }

  lemma NothingLost(rows: Rows, results: Results, over: int)
    ensures LostBlobs([]) == {} && LostResults([]) == {}
    ensures over <= 0 ==> DropsOldestRows(rows, results, [], over)
  {
  }

  lemma LostAreDroppable(rows: Rows, results: Results, going: seq<Losable>)
    requires Elements(going) <= Droppable(rows, results)
    ensures LostBlobs(going) <= rows.Keys && LostBlobs(going) !! Present(rows) && LostResults(going) <= results.Keys
  {
    forall one | one in going
      ensures one in Droppable(rows, results)
    {
      assert one in Elements(going);
    }
  }

  lemma RowsLeft(rows: Rows, results: Results, going: seq<Losable>)
    requires Distinct(going) && Elements(going) <= Droppable(rows, results)
    ensures |rows - LostBlobs(going)| + |results - LostResults(going)| == |rows| + |results| - |going|
  {
    hide Droppable;
    LostAreDroppable(rows, results, going);
    var blobs, actions := LostBlobs(going), LostResults(going);
    assert (rows - blobs).Keys == rows.Keys - blobs && (results - actions).Keys == results.Keys - actions;
    CountLost(going);
  }

  lemma DroppableLeft(rows: Rows, results: Results, going: seq<Losable>)
    requires Elements(going) == Droppable(rows, results)
    ensures Droppable(rows - LostBlobs(going), results - LostResults(going)) == {}
  {
    forall one | one in Droppable(rows, results)
      ensures one in going
    {
      assert one in Elements(going);
    }
    forall hash | hash in rows && !rows[hash].present
      ensures hash in LostBlobs(going)
    {
      assert LosableBlob(hash) in Droppable(rows, results);
      assert LosableBlob(hash) in going;
    }
    forall action | action in results
      ensures action in LostResults(going)
    {
      assert LosableResult(action) in Droppable(rows, results);
      assert LosableResult(action) in going;
    }
  }

  /** Dropping rows loses no present blob, and ends within the bound or with nothing left to lose. */
  lemma DroppingRowsKeepsPresent(rows: Rows, results: Results, going: seq<Losable>, over: int)
    requires DropsOldestRows(rows, results, going, over) && over > 0
    ensures Present(rows - LostBlobs(going)) == Present(rows)
    ensures var rest, kept := rows - LostBlobs(going), results - LostResults(going);
            |rest| + |kept| == |rows| + |results| - |going|
            && (|going| == over || Droppable(rest, kept) == {})
  {
    hide Droppable, SeenAt;
    LostAreDroppable(rows, results, going);
    RowsLeft(rows, results, going);
    if Elements(going) == Droppable(rows, results) {
      DroppableLeft(rows, results, going);
    }
  }

  lemma {:induction false} CountLost(going: seq<Losable>)
    requires Distinct(going)
    ensures |LostBlobs(going)| + |LostResults(going)| == |going|
  {
    if going != [] {
      var n := |going| - 1;
      CountLost(going[..n]);
      LostNext(going, n);
      assert going[..n + 1] == going;
    }
  }

  // A batch of blobs.

  function Hashes(blobs: seq<Blob>): set<Hash> {
    set blob | blob in blobs :: blob.digest.hash
  }

  /** A batch names every blob once, the way a mapping does. */
  predicate OneEach(blobs: seq<Blob>) {
    forall i, j :: 0 <= i < j < |blobs| ==> blobs[i].digest.hash != blobs[j].digest.hash
  }

  ghost predicate SizedBlobs(blobs: seq<Blob>, sizeOf: Hash -> nat) {
    forall blob :: blob in blobs ==> blob.digest.size == sizeOf(blob.digest.hash)
  }

  predicate Checked(sha: Bytes -> Hash, blob: Blob) {
    sha(blob.data) == blob.digest.hash && |blob.data| == blob.digest.size
  }

  lemma HashesNext(blobs: seq<Blob>, i: nat)
    requires i < |blobs| && OneEach(blobs)
    ensures Hashes(blobs[..i + 1]) == Hashes(blobs[..i]) + {blobs[i].digest.hash}
    ensures blobs[i].digest.hash !in Hashes(blobs[..i]) && blobs[i] in blobs
  {
    assert blobs[..i + 1] == blobs[..i] + [blobs[i]];
  }

  /** The files a batch is written to. */
  function FilesOf(blobs: seq<Blob>, now: nat): Files {
    if blobs == [] then map[]
    else
      var last := blobs[|blobs| - 1];
      FilesOf(blobs[..|blobs| - 1], now)[last.digest.hash := BlobFile(last.data, now)]
  }

  lemma FilesOfNext(blobs: seq<Blob>, i: nat, now: nat)
    requires i < |blobs|
    ensures FilesOf(blobs[..i + 1], now) == FilesOf(blobs[..i], now)[blobs[i].digest.hash := BlobFile(blobs[i].data, now)]
  {
    assert blobs[..i + 1][..i] == blobs[..i];
  }

  function UpsertAll(rows: Rows, blobs: seq<Blob>, bundle: Option<string>, now: nat): Rows {
    if blobs == [] then rows
    else Upsert(UpsertAll(rows, blobs[..|blobs| - 1], bundle, now), blobs[|blobs| - 1].digest, bundle, now)
  }

  /** What committing a batch does to each row. */
  ghost predicate Upserted(rows: Rows, after: Rows, batch: set<Hash>, bundle: Option<string>, now: nat) {
    && after.Keys == rows.Keys + batch
    && (forall hash :: hash in rows && hash !in batch ==> after[hash] == rows[hash])
    && (forall hash :: hash in batch ==>
          after[hash].present && after[hash].seen == now
          && after[hash].bundle == if bundle.Some? then bundle else if hash in rows then rows[hash].bundle else None)
  }

  lemma UpsertOne(rows: Rows, mid: Rows, batch: set<Hash>, digest: Digest, bundle: Option<string>, now: nat)
    requires Upserted(rows, mid, batch, bundle, now)
    ensures Upserted(rows, Upsert(mid, digest, bundle, now), batch + {digest.hash}, bundle, now)
  {
  }

  lemma {:induction false} UpsertAllHolds(rows: Rows, blobs: seq<Blob>, bundle: Option<string>, now: nat, sizeOf: Hash -> nat)
    requires Sized(rows, sizeOf) && SizedBlobs(blobs, sizeOf)
    ensures Sized(UpsertAll(rows, blobs, bundle, now), sizeOf)
    ensures Upserted(rows, UpsertAll(rows, blobs, bundle, now), Hashes(blobs), bundle, now)
  {
    hide Upserted;
    if blobs == [] {
      UpsertNone(rows, bundle, now);
      assert Hashes(blobs) == {};
    } else {
      var n := |blobs| - 1;
      var front, last := blobs[..n], blobs[n];
      UpsertAllHolds(rows, front, bundle, now, sizeOf);
      assert blobs == front + [last];
      assert Hashes(blobs) == Hashes(front) + {last.digest.hash};
      UpsertOne(rows, UpsertAll(rows, front, bundle, now), Hashes(front), last.digest, bundle, now);
    }
  }

  lemma UpsertNone(rows: Rows, bundle: Option<string>, now: nat)
    ensures Upserted(rows, rows, {}, bundle, now)
  {
  }

  lemma UpsertedPresent(rows: Rows, after: Rows, batch: set<Hash>, bundle: Option<string>, now: nat)
    requires Upserted(rows, after, batch, bundle, now)
    ensures Present(after) == Present(rows) + batch
  {
  }

  lemma EvictsNothing(files: Files, candidates: set<Hash>, sizeOf: Hash -> nat)
    ensures EvictsLeastUsed(files, candidates, [], 0, sizeOf)
  {
  }

  lemma EvictsCandidates(files: Files, candidates: set<Hash>, going: seq<Hash>, over: int, sizeOf: Hash -> nat)
    requires EvictsLeastUsed(files, candidates, going, over, sizeOf)
    ensures Elements(going) <= candidates
    ensures Sum(Elements(going), sizeOf) >= over || Elements(going) == candidates
  {
  }

  /** Walk the candidates from the least recently used on until enough bytes are freed. */
  method LeastUsed(rows: Rows, files: Files, candidates: set<Hash>, over: int, ghost sizeOf: Hash -> nat)
    returns (going: seq<Hash>)
    requires Sized(rows, sizeOf) && candidates <= rows.Keys
    ensures EvictsLeastUsed(files, candidates, going, over, sizeOf)
  {
    hide Used, UsedNoLater, Ranks;
    UseRanks(files);
    var ages := Sort(candidates, (a: Hash, b: Hash) => UsedNoLater(files, a, b));
    var freed, i := 0, 0;
    assert ages[..0] == [] && Elements(ages[..0]) == {};
    while i < |ages| && freed < over
      invariant 0 <= i <= |ages|
      invariant freed == Sum(Elements(ages[..i]), sizeOf)
      invariant i > 0 ==> Sum(Elements(ages[..i - 1]), sizeOf) < over
    {
      assert ages[i] in Elements(ages);
      SumOfNext(ages, i, sizeOf);
      freed := freed + rows[ages[i]].size;
      i := i + 1;
    }
    going := ages[..i];
    PrefixIsLeastUsed(files, candidates, ages, i, over, sizeOf);
  }

  lemma UsedInOrder(files: Files, ages: seq<Hash>, j: nat, k: nat)
    requires Sorted((a: Hash, b: Hash) => UsedNoLater(files, a, b), ages) && j < k < |ages|
    ensures UsedNoLater(files, ages[j], ages[k])
  {
    hide UsedNoLater;
    var leq := (a: Hash, b: Hash) => UsedNoLater(files, a, b);
    assert leq(ages[j], ages[k]);
  }

  lemma PrefixIsUsedFirst(files: Files, ages: seq<Hash>, i: nat, gone: Hash, kept: Hash)
    requires Sorted((a: Hash, b: Hash) => UsedNoLater(files, a, b), ages) && i <= |ages|
    requires gone in ages[..i] && kept in ages && kept !in ages[..i]
    ensures UsedNoLater(files, gone, kept)
  {
    hide UsedNoLater, Sorted;
    var j :| 0 <= j < i && ages[j] == gone;
    var k :| 0 <= k < |ages| && ages[k] == kept;
    assert ages == ages[..i] + ages[i..];
    UsedInOrder(files, ages, j, k);
  }

  lemma PrefixInOrder(files: Files, ages: seq<Hash>, i: nat)
    requires Sorted((a: Hash, b: Hash) => UsedNoLater(files, a, b), ages) && i <= |ages|
    ensures forall j, k :: 0 <= j < k < i ==> UsedNoLater(files, ages[..i][j], ages[..i][k])
  {
    hide UsedNoLater, Sorted;
    forall j, k | 0 <= j < k < i
      ensures UsedNoLater(files, ages[..i][j], ages[..i][k])
    {
      UsedInOrder(files, ages, j, k);
    }
  }

  lemma PrefixIsAmong(ages: seq<Hash>, candidates: set<Hash>, i: nat)
    requires Distinct(ages) && Elements(ages) == candidates && i <= |ages|
    ensures Distinct(ages[..i]) && Elements(ages[..i]) <= candidates
    ensures forall one :: one in candidates <==> one in ages
    ensures i == |ages| ==> Elements(ages[..i]) == candidates
    ensures i > 0 ==> ages[..i][..i - 1] == ages[..i - 1]
  {
    assert i == |ages| ==> ages[..i] == ages;
  }

  lemma PrefixIsLeastUsed(files: Files, candidates: set<Hash>, ages: seq<Hash>, i: nat, over: int, sizeOf: Hash -> nat)
    requires Sorted((a: Hash, b: Hash) => UsedNoLater(files, a, b), ages)
    requires Distinct(ages) && Elements(ages) == candidates && i <= |ages|
    requires Sum(Elements(ages[..i]), sizeOf) >= over || i == |ages|
    requires i > 0 ==> Sum(Elements(ages[..i - 1]), sizeOf) < over
    ensures EvictsLeastUsed(files, candidates, ages[..i], over, sizeOf)
  {
    hide UsedNoLater, Used, Sorted, Distinct, Elements, Sum;
    PrefixIsAmong(ages, candidates, i);
    PrefixInOrder(files, ages, i);
    var going := ages[..i];
    forall gone, kept | gone in going && kept in candidates && kept !in going
      ensures UsedNoLater(files, gone, kept)
    {
      PrefixIsUsedFirst(files, ages, i, gone, kept);
    }
  }

  lemma SumOfNext(ages: seq<Hash>, i: nat, sizeOf: Hash -> nat)
    requires i < |ages| && Distinct(ages)
    ensures Sum(Elements(ages[..i + 1]), sizeOf) == Sum(Elements(ages[..i]), sizeOf) + sizeOf(ages[i])
    ensures ages[..i + 1] == ages[..i] + [ages[i]]
  {
    assert Elements(ages[..i + 1]) == Elements(ages[..i]) + {ages[i]};
    SumWith(Elements(ages[..i]), sizeOf, ages[i]);
  }

  // What storing a batch comes to.

  ghost predicate Holds(files: Files, blobs: seq<Blob>) {
    forall blob :: blob in blobs ==> blob.digest.hash in files && files[blob.digest.hash].data == blob.data
  }

  /** No row appears that was not stored now, and every row knows the bundle it knew, or the one the
      batch arrived in. */
  ghost predicate KeepsProvenance(before: Rows, after: Rows, batch: set<Hash>, bundle: Option<string>) {
    && (forall hash :: hash in after ==> hash in before || hash in batch)
    && (forall hash :: hash in after ==>
          after[hash].bundle == if hash in batch && bundle.Some? then bundle
                                else if hash in before then before[hash].bundle else None)
  }

  ghost predicate FewerOthers(before: Files, after: Files, batch: set<Hash>) {
    forall hash :: hash in after && hash !in batch ==> hash in before && after[hash] == before[hash]
  }

  ghost predicate FewerResults(before: Results, after: Results) {
    forall action :: action in after ==> action in before && after[action] == before[action]
  }

  lemma SumOfNoBytes(items: set<string>, weight: string -> nat)
    requires forall one :: one in items ==> weight(one) == 0
    ensures Sum(items, weight) == 0
  {
    if items != {} {
      var one :| one in items;
      SumWithout(items, weight, one);
      SumOfNoBytes(items - {one}, weight);
    }
  }

  lemma NoCandidatesNoBytes(rows: Rows, files: Files, keeping: set<Hash>, sizeOf: Hash -> nat)
    requires Sized(rows, sizeOf) && files.Keys == Present(rows) && Candidates(rows, files, keeping) == {}
    ensures Sum(Present(rows) - keeping, sizeOf) == 0
  {
    forall one | one in Present(rows) - keeping
      ensures sizeOf(one) == 0
    {
      assert one !in Candidates(rows, files, keeping);
    }
    SumOfNoBytes(Present(rows) - keeping, sizeOf);
  }

  /** Making room leaves the batch alone, and leaves enough room unless the batch alone is too big. */
  lemma BatchKept(before: Rows, files: Files, batch: set<Hash>, going: seq<Hash>, now: nat, held: int,
                  arriving: nat, maxBytes: nat, downTo: nat, sizeOf: Hash -> nat)
    requires Sized(before, sizeOf) && files.Keys == Present(before) && arriving == Sum(batch - Present(before), sizeOf)
    requires Elements(going) <= Candidates(before, files, batch)
    requires var rows := ForgetRows(before, Elements(going), now);
             held == Sum(Present(rows), sizeOf)
             && (held + arriving <= maxBytes || Candidates(rows, files - Elements(going), batch) == {})
    ensures var rows := ForgetRows(before, Elements(going), now);
            && batch - Present(rows) == batch - Present(before)
            && (held + arriving <= maxBytes || held + arriving == Sum(batch, sizeOf))
  {
    var rows := ForgetRows(before, Elements(going), now);
    ForgetKeepsCount(before, Elements(going), now, sizeOf);
    assert batch - Present(rows) == batch - Present(before);
    if held + arriving > maxBytes {
      NoCandidatesNoBytes(rows, files - Elements(going), batch, sizeOf);
      var present := Present(rows);
      SumOfParts(present - batch, present * batch, sizeOf);
      assert present - batch + present * batch == present;
      SumOfParts(present * batch, batch - present, sizeOf);
      assert present * batch + (batch - present) == batch;
    }
  }

  lemma {:induction false} FilesOfKeys(blobs: seq<Blob>, now: nat)
    requires OneEach(blobs)
    ensures FilesOf(blobs, now).Keys == Hashes(blobs)
  {
    if blobs != [] {
      var n := |blobs| - 1;
      FilesOfKeys(blobs[..n], now);
      HashesNext(blobs, n);
      assert blobs[..n + 1] == blobs;
      hide Hashes;
    }
  }

  lemma {:induction false} FilesOfAt(blobs: seq<Blob>, i: nat, now: nat)
    requires OneEach(blobs) && i < |blobs|
    ensures var files, hash := FilesOf(blobs, now), blobs[i].digest.hash;
            hash in files && files[hash].data == blobs[i].data
  {
    var n := |blobs| - 1;
    if i < n {
      FilesOfAt(blobs[..n], i, now);
    }
  }

  lemma FilesOfHolds(blobs: seq<Blob>, now: nat)
    requires OneEach(blobs)
    ensures FilesOf(blobs, now).Keys == Hashes(blobs)
    ensures forall i :: 0 <= i < |blobs| ==>
              blobs[i].digest.hash in FilesOf(blobs, now) && FilesOf(blobs, now)[blobs[i].digest.hash].data == blobs[i].data
  {
    hide FilesOf, Hashes;
    FilesOfKeys(blobs, now);
    forall i | 0 <= i < |blobs|
      ensures blobs[i].digest.hash in FilesOf(blobs, now) && FilesOf(blobs, now)[blobs[i].digest.hash].data == blobs[i].data
    {
      FilesOfAt(blobs, i, now);
    }
  }

  lemma BatchWritten(before: Rows, files: Files, after: Rows, blobs: seq<Blob>, bundle: Option<string>, now: nat)
    requires OneEach(blobs) && files.Keys == Present(before) && Upserted(before, after, Hashes(blobs), bundle, now)
    ensures (files + FilesOf(blobs, now)).Keys == Present(after)
    ensures Holds(files + FilesOf(blobs, now), blobs)
  {
    FilesOfHolds(blobs, now);
    UpsertedPresent(before, after, Hashes(blobs), bundle, now);
  }

  lemma NothingOver(files: Files, candidates: set<Hash>, going: seq<Hash>, sizeOf: Hash -> nat)
    requires EvictsLeastUsed(files, candidates, going, 0, sizeOf)
    ensures going == []
  {
  }

  lemma LastEviction(rows: Rows, files: Files, held: int, maxBytes: nat, sizeOf: Hash -> nat)
    requires Sized(rows, sizeOf) && files.Keys == Present(rows) && held == Sum(Present(rows), sizeOf)
    requires held <= maxBytes || Candidates(rows, files, {}) == {}
    ensures held <= maxBytes
  {
    if Candidates(rows, files, {}) == {} {
      NoCandidatesNoBytes(rows, files, {}, sizeOf);
      assert Present(rows) - {} == Present(rows);
    }
  }

  lemma Provenance(before: Rows, gone: set<Hash>, mid: Rows, stored: Rows, batch: set<Hash>, more: set<Hash>,
                   lost: set<Hash>, bundle: Option<string>, now: nat)
    requires mid == ForgetRows(before, gone, now) && Upserted(mid, stored, batch, bundle, now)
    ensures KeepsProvenance(before, ForgetRows(stored, more, now) - lost, batch, bundle)
  {
  }

  lemma OnlyBatchWritten(before: Files, gone: set<Hash>, blobs: seq<Blob>, more: set<Hash>, now: nat)
    requires OneEach(blobs)
    ensures FewerOthers(before, before - gone + FilesOf(blobs, now) - more, Hashes(blobs))
  {
    FilesOfHolds(blobs, now);
  }

  lemma ResultsLeft(before: Results, lost: set<Hash>)
    ensures FewerResults(before, before - lost)
  {
  }

  lemma AllGenuine(before: Files, gone: set<Hash>, blobs: seq<Blob>, more: set<Hash>, now: nat,
                   sha: Bytes -> Hash, sizeOf: Hash -> nat)
    requires OneEach(blobs) && SizedBlobs(blobs, sizeOf) && GenuineFiles(before, sha, sizeOf)
    requires forall i :: 0 <= i < |blobs| ==> Checked(sha, blobs[i])
    ensures GenuineFiles(before - gone + FilesOf(blobs, now) - more, sha, sizeOf)
  {
    FilesOfHolds(blobs, now);
  }

  lemma StillSized(before: Files, gone: set<Hash>, blobs: seq<Blob>, more: set<Hash>, now: nat,
                     sha: Bytes -> Hash, sizeOf: Hash -> nat)
    requires OneEach(blobs) && SizedBlobs(blobs, sizeOf) && SizedFiles(before, sha, sizeOf)
    requires forall i :: 0 <= i < |blobs| ==> Checked(sha, blobs[i])
    ensures SizedFiles(before - gone + FilesOf(blobs, now) - more, sha, sizeOf)
  {
    FilesOfHolds(blobs, now);
  }

  /** Opening a store keeps files, or drops them. */
  lemma ReconciledIsNoWorse(rows: Rows, files: Files, sha: Bytes -> Hash, sizeOf: Hash -> nat)
    ensures GenuineFiles(files, sha, sizeOf) ==> GenuineFiles(ReconciledFiles(rows, files), sha, sizeOf)
    ensures SizedFiles(files, sha, sizeOf) ==> SizedFiles(ReconciledFiles(rows, files), sha, sizeOf)
  {
  }

  // Reading and attributing.

  predicate SameBytes(before: Files, after: Files) {
    before.Keys == after.Keys && forall hash :: hash in before ==> before[hash].data == after[hash].data
  }

  /** What was found here was used now; nothing else was. */
  ghost predicate CountedAsUsed(before: Files, after: Files, digests: seq<Digest>, now: nat) {
    && SameBytes(before, after)
    && forall hash :: hash in before ==>
         after[hash].used == if exists i :: 0 <= i < |digests| && digests[i].hash == hash && Here(before, digests[i]) then now
                             else before[hash].used
  }

  lemma NothingUsed(files: Files, digests: seq<Digest>, now: nat)
    ensures CountedAsUsed(files, files, digests[..0], now)
  {
  }

  lemma UsedOneMore(first: Files, before: Files, after: Files, digests: seq<Digest>, i: nat, now: nat)
    requires i < |digests| && CountedAsUsed(first, before, digests[..i], now)
    requires after == if Here(first, digests[i]) then before[digests[i].hash := before[digests[i].hash].(used := now)] else before
    ensures CountedAsUsed(first, after, digests[..i + 1], now)
  {
    var front, more := digests[..i], digests[..i + 1];
    forall hash | hash in first
      ensures after[hash].used == if exists j :: 0 <= j < |more| && more[j].hash == hash && Here(first, more[j]) then now
                                  else first[hash].used
    {
      if exists j :: 0 <= j < |front| && front[j].hash == hash && Here(first, front[j]) {
        var j :| 0 <= j < |front| && front[j].hash == hash && Here(first, front[j]);
        assert more[j] == front[j];
      }
      if digests[i].hash == hash && Here(first, digests[i]) {
        assert more[i] == digests[i];
      }
      forall j | 0 <= j < |more| && more[j].hash == hash && Here(first, more[j])
        ensures j == i || (0 <= j < |front| && front[j] == more[j])
      {
      }
    }
  }

  predicate Here(files: Files, digest: Digest) {
    digest.hash in files && |files[digest.hash].data| == digest.size
  }

  function Attributed(rows: Rows, bundle: string): set<Hash> {
    set hash | hash in rows && rows[hash].bundle == Some(bundle)
  }

  lemma ForgetAbsent(rows: Rows, files: Files, hash: Hash, now: nat)
    requires files.Keys == Present(rows) && hash !in files
    ensures ForgetRows(rows, {hash}, now) == rows && files - {hash} == files
  {
    assert hash !in Present(rows);
  }

  function AttributeAll(rows: Rows, digests: seq<Digest>, bundle: string, now: nat): Rows {
    if digests == [] then rows
    else Attribute(AttributeAll(rows, digests[..|digests| - 1], bundle, now), digests[|digests| - 1], bundle, now)
  }

  lemma {:induction false} AttributeAllKeys(rows: Rows, digests: seq<Digest>, bundle: string, now: nat)
    ensures AttributeAll(rows, digests, bundle, now).Keys == rows.Keys + HashesOf(digests)
  {
    if digests != [] {
      var n := |digests| - 1;
      AttributeAllKeys(rows, digests[..n], bundle, now);
      assert digests == digests[..n] + [digests[n]];
    }
  }

  /** Keeping a result, and then remembering where its blobs came from, loses nothing if there is room. */
  lemma RoomToKeep(rows0: Rows, results0: Results, rows1: Rows, results1: Results, rows2: Rows, results2: Results,
                   action: Hash, kept: Kept, digests: seq<Digest>, bundle: string, now: nat, maxRows: nat)
    requires AfterEviction(rows0, results0[action := kept], maxRows, rows1, results1)
    requires AfterEviction(AttributeAll(rows1, digests, bundle, now), results1, maxRows, rows2, results2)
    requires HasRoom(rows0, HashesOf(digests), results0, {action}, maxRows)
    ensures rows2 == AttributeAll(rows0, digests, bundle, now) && results2 == results0[action := kept]
  {
    hide AfterEviction, AttributeAll, HashesOf;
    var results := results0[action := kept];
    assert results.Keys == results0.Keys + {action} && |results| == |results.Keys|;
    SubsetSize(rows0.Keys, rows0.Keys + HashesOf(digests));
    assert |rows0| == |rows0.Keys|;
    RoomForAll(rows0, results, maxRows, rows1, results1);
    AttributeAllKeys(rows0, digests, bundle, now);
    var rows := AttributeAll(rows0, digests, bundle, now);
    assert |rows| == |rows.Keys|;
    RoomForAll(rows, results, maxRows, rows2, results2);
  }

  /** Keeping one more result loses nothing if there is room. */
  lemma RoomForResult(rows0: Rows, results0: Results, rows1: Rows, results1: Results, action: Hash, kept: Kept, maxRows: nat)
    requires AfterEviction(rows0, results0[action := kept], maxRows, rows1, results1) && HasRoom(rows0, {}, results0, {action}, maxRows)
    ensures rows1 == rows0 && results1 == results0[action := kept]
  {
    hide AfterEviction;
    var results := results0[action := kept];
    assert results.Keys == results0.Keys + {action} && |results| == |results.Keys|;
    assert rows0.Keys + {} == rows0.Keys && |rows0| == |rows0.Keys|;
    RoomForAll(rows0, results, maxRows, rows1, results1);
  }

  lemma SubsetSize(a: set<Hash>, b: set<Hash>)
    requires a <= b
    ensures |a| <= |b|
  {
    assert b == a + (b - a);
  }

  /** Room for more is room for less. */
  lemma RoomForLess(rows: Rows, batch: set<Hash>, fewer: set<Hash>, results: Results, actions: set<Hash>, some: set<Hash>, maxRows: nat)
    requires HasRoom(rows, batch, results, actions, maxRows) && fewer <= batch && some <= actions
    ensures HasRoom(rows, fewer, results, some, maxRows)
  {
    SubsetSize(rows.Keys + fewer, rows.Keys + batch);
    SubsetSize(results.Keys + some, results.Keys + actions);
  }

  lemma {:induction false} AttributeAllHolds(rows: Rows, digests: seq<Digest>, bundle: string, now: nat, sizeOf: Hash -> nat)
    requires Sized(rows, sizeOf)
    requires forall digest :: digest in digests ==> digest.hash in rows || digest.size == sizeOf(digest.hash)
    ensures var after := AttributeAll(rows, digests, bundle, now);
            Sized(after, sizeOf) && Present(after) == Present(rows)
            && KeepsProvenance(rows, after, HashesOf(digests), Some(bundle))
  {
    if digests == [] {
      RowsKept(rows, {});
      assert rows - {} == rows && HashesOf(digests) == {};
      AttributedNone(rows, bundle);
    } else {
      var n := |digests| - 1;
      var front, last := digests[..n], digests[n];
      assert digests == front + [last];
      AttributeAllHolds(rows, front, bundle, now, sizeOf);
      AttributeAllKeys(rows, front, bundle, now);
      assert HashesOf(digests) == HashesOf(front) + {last.hash};
      AttributeOne(rows, AttributeAll(rows, front, bundle, now), HashesOf(front), last, bundle, now);
    }
  }

  /** Remembering dates the rows it names, makes rows for those that had none, and leaves the others alone. */
  lemma {:induction false} RememberedRows(rows: Rows, digests: seq<Digest>, bundle: string, now: nat, hash: Hash)
    ensures var after := AttributeAll(rows, digests, bundle, now);
            && (hash in after <==> hash in rows || hash in HashesOf(digests))
            && (hash in HashesOf(digests) ==> after[hash].seen == now && after[hash].bundle == Some(bundle))
            && (hash in rows ==> after[hash].present == rows[hash].present && after[hash].size == rows[hash].size)
            && (hash in rows && hash !in HashesOf(digests) ==> after[hash] == rows[hash])
            && (hash !in rows && hash in after ==> !after[hash].present)
  {
    if digests == [] {
      assert HashesOf(digests) == {};
    } else {
      var n := |digests| - 1;
      RememberedRows(rows, digests[..n], bundle, now, hash);
      assert digests == digests[..n] + [digests[n]];
      assert HashesOf(digests) == HashesOf(digests[..n]) + {digests[n].hash};
    }
  }

  lemma AttributedOne(rows: Rows, digest: Digest, bundle: string, other: string, now: nat)
    ensures var after := Attribute(rows, digest, bundle, now);
            && Attributed(after, bundle) == Attributed(rows, bundle) + {digest.hash}
            && (other != bundle ==> Attributed(after, other) == Attributed(rows, other) - {digest.hash})
  {
  }

  /** Afterwards the index names these blobs as the bundle's, besides those it did before, and no longer
      as any other's. */
  lemma {:induction false} AttributedAfterwards(rows: Rows, digests: seq<Digest>, bundle: string, other: string, now: nat)
    ensures var after := AttributeAll(rows, digests, bundle, now);
            && Attributed(after, bundle) == Attributed(rows, bundle) + HashesOf(digests)
            && (other != bundle ==> Attributed(after, other) == Attributed(rows, other) - HashesOf(digests))
  {
    if digests == [] {
      assert HashesOf(digests) == {};
    } else {
      var n := |digests| - 1;
      AttributedAfterwards(rows, digests[..n], bundle, other, now);
      assert digests == digests[..n] + [digests[n]];
      assert HashesOf(digests) == HashesOf(digests[..n]) + {digests[n].hash};
      AttributedOne(AttributeAll(rows, digests[..n], bundle, now), digests[n], bundle, other, now);
      hide Attributed, Attribute, HashesOf;
    }
  }

  lemma AttributedNone(rows: Rows, bundle: string)
    ensures KeepsProvenance(rows, rows, {}, Some(bundle))
  {
  }

  lemma AttributeOne(rows: Rows, mid: Rows, batch: set<Hash>, digest: Digest, bundle: string, now: nat)
    requires KeepsProvenance(rows, mid, batch, Some(bundle))
    ensures KeepsProvenance(rows, Attribute(mid, digest, bundle, now), batch + {digest.hash}, Some(bundle))
    ensures Present(Attribute(mid, digest, bundle, now)) == Present(mid)
  {
  }

  lemma AttributedLeft(before: Rows, mid: Rows, lost: set<Hash>, digests: seq<Digest>, bundle: string)
    requires KeepsProvenance(before, mid, HashesOf(digests), Some(bundle))
    ensures KeepsProvenance(before, mid - lost, HashesOf(digests), Some(bundle))
  {
  }

  lemma RowsKept(before: Rows, lost: set<Hash>)
    ensures KeepsProvenance(before, before - lost, {}, None)
  {
  }

  // Starting up.

  /** Rows whose file is gone count as absent; nothing else about them changes. */
  function ReconciledRows(rows: Rows, onDisk: set<Hash>): Rows {
    map hash | hash in rows :: rows[hash].(present := rows[hash].present && hash in onDisk)
  }

  /** Files no present row names are removed. */
  function ReconciledFiles(rows: Rows, files: Files): Files {
    map hash | hash in files && hash in rows && rows[hash].present :: files[hash]
  }

  lemma NothingMissing(rows: Rows)
    ensures ReconciledRows(rows, rows.Keys - {}) == rows
  {
  }

  lemma MissingOne(rows: Rows, gone: set<Hash>, one: Hash)
    requires one in rows
    ensures var before := ReconciledRows(rows, rows.Keys - gone);
            one in before
            && ReconciledRows(rows, rows.Keys - (gone + {one})) == before[one := before[one].(present := false)]
  {
  }

  lemma OrphansGone(rows: Rows, files: Files)
    ensures files - (files.Keys - Present(rows)) == ReconciledFiles(rows, files)
    ensures ReconciledFiles(rows, files).Keys == Present(rows) * files.Keys == Present(ReconciledRows(rows, files.Keys))
  {
  }

  lemma ReconciledIsSized(rows: Rows, onDisk: set<Hash>, sizeOf: Hash -> nat)
    requires Sized(rows, sizeOf)
    ensures Sized(ReconciledRows(rows, onDisk), sizeOf)
    ensures Present(rows) * onDisk <= ReconciledRows(rows, onDisk).Keys
  {
  }

  lemma MissingSettled(rows: Rows, files: Files)
    ensures ReconciledRows(rows, rows.Keys - (Present(rows) - files.Keys)) == ReconciledRows(rows, files.Keys)
  {
  }

  lemma ReconciledThenStored(before: Rows, onDisk: set<Hash>, settled: Rows, after: Rows, batch: set<Hash>)
    requires settled == ReconciledRows(before, onDisk) && KeepsProvenance(settled, after, batch, None)
    ensures KeepsProvenance(before, after, batch, None)
  {
  }

  /** A start-up loses no provenance and no bytes that can be accounted for. */
  lemma ReconcilingKeepsProvenance(rows: Rows, files: Files)
    ensures var after := ReconciledRows(rows, files.Keys);
            && after.Keys == rows.Keys
            && (forall hash :: hash in rows ==> after[hash].bundle == rows[hash].bundle && after[hash].size == rows[hash].size)
            && ReconciledFiles(rows, files).Keys == Present(after) == Present(rows) * files.Keys
            && (forall hash :: hash in ReconciledFiles(rows, files) ==> ReconciledFiles(rows, files)[hash] == files[hash])
  {
  }
}
