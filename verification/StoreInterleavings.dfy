/** The store under many threads, and under kills.

    Threads interleave between the sections that hold the store's lock. Each step below is one such
    section, or one file operation that happens outside the lock. A kill loses the byte count and
    whatever was not committed, and may leave any files behind. */
module StoreInterleavings {
  import opened Bytes
  import opened Options
  import opened Sorting
  import opened Sums
  import opened Store

  /** `written` holds what each thread has written of the batch it is storing, until it commits it. */
  datatype State = State(rows: Rows, files: Files, results: Results, held: int, written: map<nat, set<Hash>>)
  {
    function Written(who: nat): set<Hash> {
      if who in written then written[who] else {}
    }
  }

  datatype Step =
    | WriteFile(who: nat, hash: Hash, data: Bytes, now: nat)
    | Commit(who: nat, blobs: seq<Blob>, bundle: Option<string>, now: nat)
    | GiveUp(who: nat)
    | Forget(hashes: seq<Hash>, now: nat)
    | Remember(digests: seq<Digest>, name: string, now: nat)
    | EvictRows(going: seq<Losable>, maxRows: nat)
    | PutResult(action: Hash, pointer: Bytes, now: nat)
    | DropResult(action: Hash)
    | Touch(hash: Hash, now: nat)
    | LoseFile(hash: Hash)

  /** Whether a step can be taken, the digests a thread brings having the sizes their hashes stand
      for. A thread commits what it wrote; nothing says that those files are still there then. */
  ghost predicate Enabled(state: State, step: Step, sizeOf: Hash -> nat) {
    match step
    case Commit(who, blobs, _, _) => OneEach(blobs) && SizedBlobs(blobs, sizeOf) && Hashes(blobs) <= state.Written(who)
    case Remember(digests, _, _) => forall digest :: digest in digests ==> digest.hash in state.rows || digest.size == sizeOf(digest.hash)
    case EvictRows(going, maxRows) =>
      DropsOldestRows(state.rows, state.results, going, |state.rows| + |state.results| - maxRows)
    case _ => true
  }

  /** The bytes a locked section frees: those of each blob it finds present, once. */
  ghost function Freed(rows: Rows, hashes: seq<Hash>, now: nat): nat {
    if hashes == [] then 0
    else
      var n := |hashes| - 1;
      var sofar := ForgetRows(rows, Elements(hashes[..n]), now);
      Freed(rows, hashes[..n], now) +
      if hashes[n] in sofar && sofar[hashes[n]].present then sofar[hashes[n]].size else 0
  }

  /** The bytes a commit adds: those of each blob its section finds absent. */
  ghost function Added(rows: Rows, blobs: seq<Blob>): nat {
    if blobs == [] then 0
    else
      var last := blobs[|blobs| - 1].digest;
      Added(rows, blobs[..|blobs| - 1]) + if last.hash in rows && rows[last.hash].present then 0 else last.size
  }

  ghost function After(state: State, step: Step): State {
    match step
    case WriteFile(who, hash, data, now) =>
      state.(files := state.files[hash := BlobFile(data, now)], written := state.written[who := state.Written(who) + {hash}])
    case Commit(who, blobs, bundle, now) =>
      state.(held := state.held + Added(state.rows, blobs), rows := UpsertAll(state.rows, blobs, bundle, now),
             written := state.written - {who})
    case GiveUp(who) => state.(written := state.written - {who})
    case Forget(hashes, now) =>
      state.(files := state.files - Elements(hashes), rows := ForgetRows(state.rows, Elements(hashes), now),
             held := state.held - Freed(state.rows, hashes, now))
    case Remember(digests, bundle, now) => state.(rows := AttributeAll(state.rows, digests, bundle, now))
    case EvictRows(going, _) =>
      state.(rows := state.rows - LostBlobs(going), results := state.results - LostResults(going))
    case PutResult(action, pointer, now) => state.(results := state.results[action := Kept(pointer, now)])
    case DropResult(action) => state.(results := state.results - {action})
    case Touch(hash, now) =>
      if hash in state.files then state.(files := state.files[hash := state.files[hash].(used := now)]) else state
    case LoseFile(hash) => state.(files := state.files - {hash})
  }

  ghost predicate Counted(state: State, sizeOf: Hash -> nat) {
    Sized(state.rows, sizeOf) && state.held == Sum(Present(state.rows), sizeOf)
  }

  ghost function StateAfter(first: State, steps: seq<Step>): State {
    if steps == [] then first else After(StateAfter(first, steps[..|steps| - 1]), steps[|steps| - 1])
  }

  /** Each step can be taken in the state the ones before it lead to. */
  ghost predicate Run(first: State, steps: seq<Step>, sizeOf: Hash -> nat) {
    forall k :: 0 <= k < |steps| ==> Enabled(StateAfter(first, steps[..k]), steps[k], sizeOf)
  }

  lemma NextState(first: State, steps: seq<Step>, k: nat)
    requires k < |steps|
    ensures StateAfter(first, steps[..k + 1]) == After(StateAfter(first, steps[..k]), steps[k])
    ensures StateAfter(first, []) == first && steps[..0] == []
  {
    assert steps[..k + 1][..k] == steps[..k];
  }

  lemma FrontRuns(first: State, steps: seq<Step>, sizeOf: Hash -> nat)
    requires Run(first, steps, sizeOf) && steps != []
    ensures var n := |steps| - 1;
            Run(first, steps[..n], sizeOf) && Enabled(StateAfter(first, steps[..n]), steps[n], sizeOf)
  {
    hide Enabled, StateAfter;
    var n := |steps| - 1;
    forall k | 0 <= k < n
      ensures Enabled(StateAfter(first, steps[..n][..k]), steps[..n][k], sizeOf)
    {
      assert steps[..n][..k] == steps[..k];
    }
  }

  lemma {:induction false} FreedIsSum(rows: Rows, hashes: seq<Hash>, now: nat, sizeOf: Hash -> nat)
    requires Sized(rows, sizeOf)
    ensures Freed(rows, hashes, now) == Sum(Elements(hashes) * Present(rows), sizeOf)
  {
    if hashes == [] {
      assert Elements(hashes) * Present(rows) == {};
    } else {
      var n := |hashes| - 1;
      FreedIsSum(rows, hashes[..n], now, sizeOf);
      assert hashes == hashes[..n] + [hashes[n]];
      assert Elements(hashes) == Elements(hashes[..n]) + {hashes[n]};
      ForgetOne(rows, Elements(hashes[..n]), hashes[n], now, sizeOf);
    }
  }

  lemma {:induction false} AddedIsSum(rows: Rows, blobs: seq<Blob>, sizeOf: Hash -> nat)
    requires OneEach(blobs) && SizedBlobs(blobs, sizeOf)
    ensures Added(rows, blobs) == Sum(Hashes(blobs) - Present(rows), sizeOf)
  {
    if blobs == [] {
      assert Hashes(blobs) - Present(rows) == {};
    } else {
      var n := |blobs| - 1;
      var front, last := blobs[..n], blobs[n].digest;
      assert blobs == front + [blobs[n]];
      AddedIsSum(rows, front, sizeOf);
      HashesNext(blobs, n);
      assert blobs[..n + 1] == blobs;
      if last.hash in Present(rows) {
        assert Hashes(blobs) - Present(rows) == Hashes(front) - Present(rows);
      } else {
        assert Hashes(blobs) - Present(rows) == Hashes(front) - Present(rows) + {last.hash};
        SumWith(Hashes(front) - Present(rows), sizeOf, last.hash);
      }
    }
  }

  lemma CommitKeepsCount(rows: Rows, blobs: seq<Blob>, bundle: Option<string>, now: nat, sizeOf: Hash -> nat)
    requires Sized(rows, sizeOf) && OneEach(blobs) && SizedBlobs(blobs, sizeOf)
    ensures var after := UpsertAll(rows, blobs, bundle, now);
            Sized(after, sizeOf) && Sum(Present(after), sizeOf) == Sum(Present(rows), sizeOf) + Added(rows, blobs)
  {
    hide Hashes, Upserted, Present, Sized;
    UpsertAllHolds(rows, blobs, bundle, now, sizeOf);
    UpsertedPresent(rows, UpsertAll(rows, blobs, bundle, now), Hashes(blobs), bundle, now);
    AddedIsSum(rows, blobs, sizeOf);
    SumOfParts(Present(rows), Hashes(blobs) - Present(rows), sizeOf);
    assert Present(rows) + (Hashes(blobs) - Present(rows)) == Present(rows) + Hashes(blobs);
  }

  lemma EvictRowsKeepsCount(rows: Rows, results: Results, going: seq<Losable>, over: int, sizeOf: Hash -> nat)
    requires Sized(rows, sizeOf) && DropsOldestRows(rows, results, going, over)
    ensures Sized(rows - LostBlobs(going), sizeOf) && Present(rows - LostBlobs(going)) == Present(rows)
  {
    hide SeenAt, LostBlobs;
    LostAreDroppable(rows, results, going);
  }

  /** Every step keeps the byte count right. */
  lemma StepKeepsCount(state: State, step: Step, sizeOf: Hash -> nat)
    requires Counted(state, sizeOf) && Enabled(state, step, sizeOf)
    ensures Counted(After(state, step), sizeOf)
  {
    hide Sized, Present, SizedBlobs, OneEach, ForgetRows, LostBlobs, LostResults, DropsOldestRows, AttributeAll,
         UpsertAll, Freed, Added;
    var rows := state.rows;
    match step
    case Commit(_, blobs, bundle, now) =>
      CommitKeepsCount(rows, blobs, bundle, now, sizeOf);
    case Forget(hashes, now) =>
      FreedIsSum(rows, hashes, now, sizeOf);
      ForgetKeepsCount(rows, Elements(hashes), now, sizeOf);
    case Remember(digests, bundle, now) =>
      AttributeAllHolds(rows, digests, bundle, now, sizeOf);
    case EvictRows(going, maxRows) =>
      EvictRowsKeepsCount(rows, state.results, going, |rows| + |state.results| - maxRows, sizeOf);
    case _ =>
  }

  /** What a row knows about where its blob can be fetched again only grows, until the row itself is
      dropped, which happens to none whose blob is present. */
  lemma StepKeepsProvenance(state: State, step: Step, sizeOf: Hash -> nat, hash: Hash)
    requires Counted(state, sizeOf) && Enabled(state, step, sizeOf)
    requires hash in state.rows
    ensures var after := After(state, step).rows;
            if hash in after then state.rows[hash].bundle.Some? ==> after[hash].bundle.Some?
            else step.EvictRows? && !state.rows[hash].present
  {
    var rows := state.rows;
    match step
    case Commit(_, blobs, bundle, now) =>
      UpsertAllHolds(rows, blobs, bundle, now, sizeOf);
    case Remember(digests, bundle, now) =>
      AttributeAllHolds(rows, digests, bundle, now, sizeOf);
      AttributeAllKeys(rows, digests, bundle, now);
    case EvictRows(going, maxRows) =>
      hide SeenAt;
      LostAreDroppable(rows, state.results, going);
    case _ =>
  }

  /** In every interleaving the byte count is the sum of the sizes of the present rows. */
  lemma {:induction false} EveryRunKeepsCount(first: State, steps: seq<Step>, sizeOf: Hash -> nat)
    requires Counted(first, sizeOf) && Run(first, steps, sizeOf)
    ensures Counted(StateAfter(first, steps), sizeOf)
  {
    hide Counted, Enabled, Run;
    if steps != [] {
      var n := |steps| - 1;
      FrontRuns(first, steps, sizeOf);
      EveryRunKeepsCount(first, steps[..n], sizeOf);
      StepKeepsCount(StateAfter(first, steps[..n]), steps[n], sizeOf);
    }
  }

  /** Start up on what a kill left: the committed rows, and whatever files there are. */
  ghost function Restarted(rows: Rows, files: Files, results: Results, sizeOf: Hash -> nat): State {
    var settled := ReconciledRows(rows, files.Keys);
    State(settled, ReconciledFiles(rows, files), results, Sum(Present(rows) * files.Keys, sizeOf), map[])
  }

  /** A kill anywhere in any interleaving, between a file operation and its commit included, costs
      nothing a start-up does not settle: files and present rows agree again, the byte count is
      exact, and every row still knows its bundle. */
  lemma EveryKillIsSettled(first: State, steps: seq<Step>, files: Files, sizeOf: Hash -> nat)
    requires Counted(first, sizeOf) && Run(first, steps, sizeOf)
    ensures var last := StateAfter(first, steps);
            var state := Restarted(last.rows, files, last.results, sizeOf);
            && Counted(state, sizeOf) && state.files.Keys == Present(state.rows)
            && state.rows.Keys == last.rows.Keys
            && forall hash :: hash in last.rows ==> state.rows[hash].bundle == last.rows[hash].bundle
  {
    var last := StateAfter(first, steps);
    EveryRunKeepsCount(first, steps, sizeOf);
    ReconcilingKeepsProvenance(last.rows, files);
    ReconciledIsSized(last.rows, files.Keys, sizeOf);
  }

  // Whether present rows have their files.

  /** Every row that is present has its file. */
  ghost predicate Backed(state: State) {
    Present(state.rows) <= state.files.Keys
  }

  /** What a step has to meet for present rows to keep their files: a commit finds its files still
      there, and no file of a present row is lost but by forgetting the row with it. */
  ghost predicate KeepsFiles(state: State, step: Step) {
    match step
    case Commit(_, blobs, _, _) => Hashes(blobs) <= state.files.Keys
    case LoseFile(hash) => hash !in Present(state.rows)
    case _ => true
  }

  lemma StepKeepsFilesExactlyIf(state: State, step: Step, sizeOf: Hash -> nat)
    requires Counted(state, sizeOf) && Enabled(state, step, sizeOf) && Backed(state)
    ensures Backed(After(state, step)) <==> KeepsFiles(state, step)
  {
    hide SizedBlobs, OneEach, Sized, Freed, Added, DropsOldestRows, UpsertAll, AttributeAll, Hashes, LostBlobs, LostResults, ForgetRows;
    var rows := state.rows;
    match step
    case Commit(_, blobs, bundle, now) =>
      UpsertAllHolds(rows, blobs, bundle, now, sizeOf);
      UpsertedPresent(rows, UpsertAll(rows, blobs, bundle, now), Hashes(blobs), bundle, now);
    case Forget(hashes, now) =>
      ForgetKeepsCount(rows, Elements(hashes), now, sizeOf);
    case Remember(digests, bundle, now) =>
      AttributeAllHolds(rows, digests, bundle, now, sizeOf);
    case EvictRows(going, maxRows) =>
      EvictRowsKeepsCount(rows, state.results, going, |rows| + |state.results| - maxRows, sizeOf);
    case _ =>
  }

  predicate Writes(step: Step, hash: Hash) {
    step.WriteFile? && step.hash == hash
  }

  predicate Removes(step: Step, hash: Hash) {
    (step.Forget? && hash in step.hashes) || (step.LoseFile? && step.hash == hash)
  }

  /** Among these steps, a file was removed after it was last written. */
  ghost predicate RemovedSince(steps: seq<Step>, hash: Hash) {
    exists j :: 0 <= j < |steps| && Removes(steps[j], hash) && forall w :: j < w < |steps| ==> !Writes(steps[w], hash)
  }

  ghost predicate WasWritten(steps: seq<Step>, hash: Hash) {
    exists w :: 0 <= w < |steps| && Writes(steps[w], hash)
  }

  lemma RemovedNext(steps: seq<Step>, hash: Hash)
    requires steps != []
    ensures var n := |steps| - 1;
            RemovedSince(steps, hash) <==> Removes(steps[n], hash) || (!Writes(steps[n], hash) && RemovedSince(steps[..n], hash))
  {
    hide Removes, Writes;
    var n := |steps| - 1;
    var front := steps[..n];
    if RemovedSince(front, hash) && !Writes(steps[n], hash) {
      var j :| 0 <= j < n && Removes(front[j], hash) && forall w :: j < w < n ==> !Writes(front[w], hash);
      assert Removes(steps[j], hash);
      assert forall w :: j < w < n ==> steps[w] == front[w];
    }
    if RemovedSince(steps, hash) && !Removes(steps[n], hash) {
      var j :| 0 <= j < |steps| && Removes(steps[j], hash) && forall w :: j < w < |steps| ==> !Writes(steps[w], hash);
      assert Removes(front[j], hash);
      assert forall w :: j < w < n ==> steps[w] == front[w];
    }
  }

  lemma WrittenNext(steps: seq<Step>, hash: Hash)
    requires steps != []
    ensures var n := |steps| - 1; WasWritten(steps, hash) <==> Writes(steps[n], hash) || WasWritten(steps[..n], hash)
  {
    hide Writes;
    var n := |steps| - 1;
    var front := steps[..n];
    if WasWritten(front, hash) {
      var w :| 0 <= w < n && Writes(front[w], hash);
      assert Writes(steps[w], hash);
    }
    if WasWritten(steps, hash) && !Writes(steps[n], hash) {
      var w :| 0 <= w < |steps| && Writes(steps[w], hash);
      assert Writes(front[w], hash);
    }
  }

  lemma FileAfter(state: State, step: Step, hash: Hash)
    ensures hash in After(state, step).files <==> Writes(step, hash) || (hash in state.files && !Removes(step, hash))
    ensures !(Writes(step, hash) && Removes(step, hash))
  {
    hide UpsertAll, ForgetRows, AttributeAll, Freed, Added, LostBlobs, LostResults;
  }

  /** A file that was written is there exactly if nothing removed it since. */
  lemma {:induction false} WrittenIsThereExactlyIf(first: State, steps: seq<Step>, hash: Hash)
    ensures hash in StateAfter(first, steps).files <==>
            (hash in first.files || WasWritten(steps, hash)) && !RemovedSince(steps, hash)
  {
    hide RemovedSince, WasWritten, Writes, Removes, After;
    if steps == [] {
      NothingRemoved(hash);
    } else {
      FileAfter(StateAfter(first, steps[..|steps| - 1]), steps[|steps| - 1], hash);
      WrittenIsThereExactlyIf(first, steps[..|steps| - 1], hash);
      RemovedNext(steps, hash);
      WrittenNext(steps, hash);
    }
  }

  lemma NothingRemoved(hash: Hash)
    ensures !RemovedSince([], hash) && !WasWritten([], hash)
  {
  }

  /** What a thread has written was written by some step. */
  lemma {:induction false} WrittenBySomeone(first: State, steps: seq<Step>, who: nat, hash: Hash)
    requires first.written == map[] && hash in StateAfter(first, steps).Written(who)
    ensures WasWritten(steps, hash)
  {
    hide WasWritten, UpsertAll, ForgetRows, AttributeAll, Freed, Added, LostBlobs, LostResults;
    if steps != [] {
      var n := |steps| - 1;
      WrittenNext(steps, hash);
      if hash in StateAfter(first, steps[..n]).Written(who) {
        WrittenBySomeone(first, steps[..n], who, hash);
      }
    }
  }

  /** In every state along a run, present rows have their files. */
  ghost predicate AlwaysBacked(first: State, steps: seq<Step>) {
    forall k :: 0 <= k <= |steps| ==> Backed(StateAfter(first, steps[..k]))
  }

  /** No file that a commit makes present was removed between its last write and the commit, and no
      file of a present row is lost on its own. */
  ghost predicate Undisturbed(first: State, steps: seq<Step>) {
    forall k :: 0 <= k < |steps| ==> StepUndisturbed(first, steps[..k], steps[k])
  }

  ghost predicate StepUndisturbed(first: State, before: seq<Step>, step: Step) {
    match step
    case Commit(_, blobs, _, _) => forall hash :: hash in Hashes(blobs) ==> !RemovedSince(before, hash)
    case LoseFile(hash) => hash !in Present(StateAfter(first, before).rows)
    case _ => true
  }

  lemma UndisturbedKeepsFiles(first: State, before: seq<Step>, step: Step, sizeOf: Hash -> nat)
    requires first.written == map[] && Enabled(StateAfter(first, before), step, sizeOf)
    ensures KeepsFiles(StateAfter(first, before), step) <==> StepUndisturbed(first, before, step)
  {
    hide StateAfter, RemovedSince, WasWritten, SizedBlobs, OneEach, DropsOldestRows, Present, Hashes;
    var state := StateAfter(first, before);
    if step.Commit? {
      forall hash | hash in Hashes(step.blobs)
        ensures hash in state.files <==> !RemovedSince(before, hash)
      {
        WrittenBySomeone(first, before, step.who, hash);
        WrittenIsThereExactlyIf(first, before, hash);
      }
    }
  }

  /** Over a whole run, present rows keep their files exactly if nothing came between the last write of a
      file and its commit, and no file of a present row was lost. */
  lemma PresentRowsKeepFilesExactlyIf(first: State, steps: seq<Step>, sizeOf: Hash -> nat)
    requires Counted(first, sizeOf) && Run(first, steps, sizeOf) && Backed(first) && first.written == map[]
    ensures AlwaysBacked(first, steps) <==> Undisturbed(first, steps)
  {
    hide Counted, Enabled, Backed, KeepsFiles, StepUndisturbed, Run, AlwaysBacked, Undisturbed;
    if AlwaysBacked(first, steps) {
      forall k | 0 <= k < |steps|
        ensures StepUndisturbed(first, steps[..k], steps[k])
      {
        StaysBacked(first, steps, k, sizeOf);
        AtEach(first, steps, k);
        AtEach(first, steps, k + 1);
      }
      EachUndisturbed(first, steps);
    } else if Undisturbed(first, steps) {
      forall k | 0 <= k <= |steps|
        ensures Backed(StateAfter(first, steps[..k]))
      {
        BackedUpTo(first, steps, k, sizeOf);
      }
      BackedAtEach(first, steps);
    }
  }

  lemma AtEach(first: State, steps: seq<Step>, k: nat)
    requires AlwaysBacked(first, steps) && k <= |steps|
    ensures Backed(StateAfter(first, steps[..k]))
  {
  }

  lemma BackedAtEach(first: State, steps: seq<Step>)
    requires forall k :: 0 <= k <= |steps| ==> Backed(StateAfter(first, steps[..k]))
    ensures AlwaysBacked(first, steps)
  {
  }

  lemma EachUndisturbed(first: State, steps: seq<Step>)
    requires forall k :: 0 <= k < |steps| ==> StepUndisturbed(first, steps[..k], steps[k])
    ensures Undisturbed(first, steps)
  {
  }

  /** One step of a run, backed before it. */
  lemma StaysBacked(first: State, steps: seq<Step>, k: nat, sizeOf: Hash -> nat)
    requires Counted(first, sizeOf) && Run(first, steps, sizeOf) && first.written == map[] && k < |steps|
    ensures Backed(StateAfter(first, steps[..k])) ==>
              (Backed(StateAfter(first, steps[..k + 1])) <==> StepUndisturbed(first, steps[..k], steps[k]))
  {
    hide Counted, Backed, KeepsFiles, StepUndisturbed, Enabled;
    FrontIsRun(first, steps, k, sizeOf);
    EveryRunKeepsCount(first, steps[..k], sizeOf);
    NextState(first, steps, k);
    UndisturbedKeepsFiles(first, steps[..k], steps[k], sizeOf);
    if Backed(StateAfter(first, steps[..k])) {
      StepKeepsFilesExactlyIf(StateAfter(first, steps[..k]), steps[k], sizeOf);
    }
  }

  lemma FrontIsRun(first: State, steps: seq<Step>, k: nat, sizeOf: Hash -> nat)
    requires Run(first, steps, sizeOf) && k < |steps|
    ensures Run(first, steps[..k], sizeOf) && Enabled(StateAfter(first, steps[..k]), steps[k], sizeOf)
  {
    hide Enabled, StateAfter;
    forall i | 0 <= i < k
      ensures Enabled(StateAfter(first, steps[..k][..i]), steps[..k][i], sizeOf)
    {
      assert steps[..k][..i] == steps[..i];
    }
  }

  lemma {:induction false} BackedUpTo(first: State, steps: seq<Step>, k: nat, sizeOf: Hash -> nat)
    requires Counted(first, sizeOf) && Run(first, steps, sizeOf) && Backed(first) && first.written == map[]
    requires Undisturbed(first, steps) && k <= |steps|
    ensures Backed(StateAfter(first, steps[..k]))
  {
    hide Counted, Enabled, Backed, StepUndisturbed, Run, After;
    if k == 0 {
      assert steps[..0] == [];
    } else {
      BackedUpTo(first, steps, k - 1, sizeOf);
      StaysBacked(first, steps, k - 1, sizeOf);
    }
  }

  /** A run that disturbs a commit: a thread stores a blob again that is here, another evicts it after the
      file was written, and the first then counts it present. Only a read or the next start-up notices. */
  lemma PresentWithoutFile(state: State, who: nat, digest: Digest, data: Bytes, now: nat, sizeOf: Hash -> nat)
    requires digest.size == sizeOf(digest.hash) && state.written == map[]
    ensures var commit := Commit(who, [Blob(digest, data)], None, now);
            var written := After(state, WriteFile(who, digest.hash, data, now));
            var evicted := After(written, Forget([digest.hash], now));
            && Enabled(evicted, commit, sizeOf)
            && !KeepsFiles(evicted, commit) && KeepsFiles(written, commit)
            && digest.hash in Present(After(evicted, commit).rows)
            && digest.hash !in After(evicted, commit).files
  {
    OneBlob(state.rows, Blob(digest, data), now, sizeOf);
    OneBlob(ForgetRows(state.rows, {digest.hash}, now), Blob(digest, data), now, sizeOf);
    hide ForgetRows, Freed, Added, Hashes, OneEach, SizedBlobs, UpsertAll, Elements;
  }

  lemma OneBlob(rows: Rows, blob: Blob, now: nat, sizeOf: Hash -> nat)
    ensures Hashes([blob]) == Elements([blob.digest.hash]) == {blob.digest.hash}
    ensures OneEach([blob]) && (blob.digest.size == sizeOf(blob.digest.hash) ==> SizedBlobs([blob], sizeOf))
    ensures UpsertAll(rows, [blob], None, now) == Upsert(rows, blob.digest, None, now)
  {
    hide Upsert;
    assert [blob][..0] == [];
    assert UpsertAll(rows, [], None, now) == rows;
  }

  // What one thread does is such a run.

  function Writing(who: nat, blobs: seq<Blob>, now: nat): seq<Step> {
    if blobs == [] then []
    else
      var n := |blobs| - 1;
      Writing(who, blobs[..n], now) + [WriteFile(who, blobs[n].digest.hash, blobs[n].data, now)]
  }

  /** A thread has written these files, and nothing else has changed. */
  ghost predicate Wrote(first: State, state: State, who: nat, blobs: seq<Blob>, now: nat) {
    && state.files == first.files + FilesOf(blobs, now) && state.rows == first.rows && state.held == first.held
    && state.results == first.results && Hashes(blobs) <= state.Written(who)
  }

  lemma WroteNext(first: State, mid: State, who: nat, blobs: seq<Blob>, n: nat, now: nat)
    requires n < |blobs| && OneEach(blobs) && Wrote(first, mid, who, blobs[..n], now)
    ensures Wrote(first, After(mid, WriteFile(who, blobs[n].digest.hash, blobs[n].data, now)), who, blobs[..n + 1], now)
  {
    hide FilesOf, Hashes;
    FilesOfNext(blobs, n, now);
    HashesNext(blobs, n);
    assert first.files + FilesOf(blobs[..n + 1], now)
        == (first.files + FilesOf(blobs[..n], now))[blobs[n].digest.hash := BlobFile(blobs[n].data, now)];
  }

  lemma {:induction false} WritingRuns(first: State, who: nat, blobs: seq<Blob>, now: nat, sizeOf: Hash -> nat)
    requires OneEach(blobs)
    ensures Run(first, Writing(who, blobs, now), sizeOf)
    ensures Wrote(first, StateAfter(first, Writing(who, blobs, now)), who, blobs, now)
  {
    hide Run, Wrote, StateAfter, After, OneEach;
    if blobs == [] {
      NothingRuns(first, who, sizeOf, now);
    } else {
      var n := |blobs| - 1;
      var front := Writing(who, blobs[..n], now);
      PrefixOneEach(blobs, n);
      WritingRuns(first, who, blobs[..n], now, sizeOf);
      WroteNext(first, StateAfter(first, front), who, blobs, n, now);
      assert blobs[..n + 1] == blobs;
      OneMoreStep(first, front, WriteFile(who, blobs[n].digest.hash, blobs[n].data, now), sizeOf);
    }
  }

  lemma PrefixOneEach(blobs: seq<Blob>, n: nat)
    requires OneEach(blobs) && n <= |blobs|
    ensures OneEach(blobs[..n])
  {
  }

  lemma NothingRuns(first: State, who: nat, sizeOf: Hash -> nat, now: nat)
    ensures Run(first, [], sizeOf) && Wrote(first, StateAfter(first, []), who, [], now)
  {
  }

  lemma OneMoreStep(first: State, steps: seq<Step>, step: Step, sizeOf: Hash -> nat)
    requires Run(first, steps, sizeOf) && Enabled(StateAfter(first, steps), step, sizeOf)
    ensures Run(first, steps + [step], sizeOf) && StateAfter(first, steps + [step]) == After(StateAfter(first, steps), step)
  {
    var longer := steps + [step];
    assert longer[..|steps|] == steps;
    forall k | 0 <= k < |longer|
      ensures Enabled(StateAfter(first, longer[..k]), longer[k], sizeOf)
    {
      if k < |steps| {
        assert longer[..k] == steps[..k] && longer[k] == steps[k];
      }
    }
  }

  /** A batch that a thread writes and then commits, undisturbed, is a run; afterwards its files are there and
      its rows are present, whatever was there before. */
  lemma StoringIsARun(first: State, who: nat, blobs: seq<Blob>, bundle: Option<string>, now: nat, sizeOf: Hash -> nat)
    returns (steps: seq<Step>)
    requires OneEach(blobs) && SizedBlobs(blobs, sizeOf) && Sized(first.rows, sizeOf)
    ensures Run(first, steps, sizeOf)
    ensures var state := StateAfter(first, steps);
            && state.files == first.files + FilesOf(blobs, now) && Hashes(blobs) <= Present(state.rows)
            && Upserted(first.rows, state.rows, Hashes(blobs), bundle, now) && state.Written(who) == {}
            && state.held == first.held + Sum(Hashes(blobs) - Present(first.rows), sizeOf)
  {
    hide Run, FilesOf, StateAfter, Hashes, Upserted, OneEach, SizedBlobs, UpsertAll, Sized, Added;
    var commit := Commit(who, blobs, bundle, now);
    WritingRuns(first, who, blobs, now, sizeOf);
    OneMoreStep(first, Writing(who, blobs, now), commit, sizeOf);
    UpsertAllHolds(first.rows, blobs, bundle, now, sizeOf);
    UpsertedPresent(first.rows, UpsertAll(first.rows, blobs, bundle, now), Hashes(blobs), bundle, now);
    AddedIsSum(first.rows, blobs, sizeOf);
    steps := Writing(who, blobs, now) + [commit];
  }

  // So is what the store's methods are proved to do, evictions included.

  lemma {:induction false} InSomeOrder(items: set<Hash>) returns (listed: seq<Hash>)
    ensures Elements(listed) == items
    decreases |items|
  {
    if items == {} {
      listed := [];
    } else {
      var one :| one in items;
      var rest := InSomeOrder(items - {one});
      listed := rest + [one];
      assert Elements(listed) == Elements(rest) + {one};
    }
  }

  /** Rows and results after an eviction of rows are what that step leaves. */
  lemma EvictingIsAStep(state: State, rows: Rows, results: Results, maxRows: nat, sizeOf: Hash -> nat) returns (step: Step)
    requires AfterEviction(state.rows, state.results, maxRows, rows, results)
    ensures Enabled(state, step, sizeOf) && After(state, step) == state.(rows := rows, results := results)
  {
    hide AfterEviction, DropsOldestRows, LostBlobs, LostResults, After, Enabled;
    var lost := WhatWasEvicted(state.rows, state.results, maxRows, rows, results);
    EvictionStep(state, lost, maxRows, sizeOf);
    step := EvictRows(lost, maxRows);
  }

  lemma EvictionStep(state: State, lost: seq<Losable>, maxRows: nat, sizeOf: Hash -> nat)
    requires DropsOldestRows(state.rows, state.results, lost, |state.rows| + |state.results| - maxRows)
    ensures Enabled(state, EvictRows(lost, maxRows), sizeOf)
    ensures After(state, EvictRows(lost, maxRows)) ==
            state.(rows := state.rows - LostBlobs(lost), results := state.results - LostResults(lost))
  {
    hide DropsOldestRows, LostBlobs, LostResults;
  }

  /** `RememberAll`, by its contract. */
  lemma RememberingIsARun(first: State, digests: seq<Digest>, name: string, now: nat, maxRows: nat, rows: Rows, results: Results,
                          sizeOf: Hash -> nat)
    returns (steps: seq<Step>)
    requires forall digest :: digest in digests ==> digest.hash in first.rows || digest.size == sizeOf(digest.hash)
    requires AfterEviction(AttributeAll(first.rows, digests, name, now), first.results, maxRows, rows, results)
    ensures Run(first, steps, sizeOf) && StateAfter(first, steps) == first.(rows := rows, results := results)
  {
    hide Run, StateAfter, AfterEviction, AttributeAll;
    StandingStill(first, sizeOf);
    var remember := Remember(digests, name, now);
    OneMoreStep(first, [], remember, sizeOf);
    var evict := EvictingIsAStep(After(first, remember), rows, results, maxRows, sizeOf);
    OneMoreStep(first, [] + [remember], evict, sizeOf);
    steps := [] + [remember] + [evict];
  }

  /** `PutResult` and `DropResult`, by theirs. */
  lemma KeepingIsARun(first: State, action: Hash, pointer: Bytes, now: nat, maxRows: nat, rows: Rows, results: Results,
                      sizeOf: Hash -> nat)
    returns (steps: seq<Step>, dropping: seq<Step>)
    requires AfterEviction(first.rows, first.results[action := Kept(pointer, now)], maxRows, rows, results)
    ensures Run(first, steps, sizeOf) && StateAfter(first, steps) == first.(rows := rows, results := results)
    ensures Run(first, dropping, sizeOf) && StateAfter(first, dropping) == first.(results := first.results - {action})
  {
    hide Run, StateAfter, AfterEviction;
    StandingStill(first, sizeOf);
    var put, drop := PutResult(action, pointer, now), DropResult(action);
    OneMoreStep(first, [], put, sizeOf);
    var evict := EvictingIsAStep(After(first, put), rows, results, maxRows, sizeOf);
    OneMoreStep(first, [] + [put], evict, sizeOf);
    OneMoreStep(first, [], drop, sizeOf);
    steps, dropping := [] + [put] + [evict], [] + [drop];
  }

  /** `Use`, and reading a blob that is intact; and forgetting one that is not. */
  lemma ReadingIsARun(first: State, hash: Hash, now: nat, sizeOf: Hash -> nat) returns (using: seq<Step>, forgetting: seq<Step>)
    requires hash in first.files && Sized(first.rows, sizeOf)
    ensures Run(first, using, sizeOf)
    ensures StateAfter(first, using) == first.(files := first.files[hash := first.files[hash].(used := now)])
    ensures Run(first, forgetting, sizeOf)
    ensures StateAfter(first, forgetting) ==
            first.(files := first.files - {hash}, rows := ForgetRows(first.rows, {hash}, now),
                   held := first.held - Sum({hash} * Present(first.rows), sizeOf))
  {
    hide Run, StateAfter, Freed, ForgetRows, Sized;
    StandingStill(first, sizeOf);
    var touch, forget := Touch(hash, now), Forget([hash], now);
    assert Elements([hash]) == {hash};
    FreedIsSum(first.rows, [hash], now, sizeOf);
    OneMoreStep(first, [], touch, sizeOf);
    OneMoreStep(first, [], forget, sizeOf);
    using, forgetting := [] + [touch], [] + [forget];
  }

  lemma StandingStill(state: State, sizeOf: Hash -> nat)
    ensures Run(state, [], sizeOf) && StateAfter(state, []) == state
  {
  }

  lemma UpsertedIsUpsert(mid: Rows, stored: Rows, blobs: seq<Blob>, bundle: Option<string>, now: nat, sizeOf: Hash -> nat)
    requires Upserted(mid, stored, Hashes(blobs), bundle, now) && Sized(mid, sizeOf) && Sized(stored, sizeOf) && SizedBlobs(blobs, sizeOf)
    ensures stored == UpsertAll(mid, blobs, bundle, now)
  {
    UpsertAllHolds(mid, blobs, bundle, now, sizeOf);
    hide UpsertAll, Hashes, SizedBlobs;
    var upserted := UpsertAll(mid, blobs, bundle, now);
    assert stored.Keys == upserted.Keys;
    forall hash | hash in stored
      ensures stored[hash] == upserted[hash]
    {
    }
  }

  /** `PutBlobs`: making room, writing, committing, and settling the bounds. */
  lemma BatchIsARun(first: State, who: nat, blobs: seq<Blob>, bundle: Option<string>, now: nat, gone: set<Hash>, stored: Rows,
                    more: set<Hash>, maxRows: nat, rows: Rows, results: Results, sizeOf: Hash -> nat)
    returns (steps: seq<Step>)
    requires OneEach(blobs) && SizedBlobs(blobs, sizeOf) && Sized(first.rows, sizeOf) && Sized(stored, sizeOf)
    requires Upserted(ForgetRows(first.rows, gone, now), stored, Hashes(blobs), bundle, now)
    requires AfterEviction(ForgetRows(stored, more, now), first.results, maxRows, rows, results)
    ensures Run(first, steps, sizeOf)
    ensures var state := StateAfter(first, steps);
            state.rows == rows && state.results == results && state.files == first.files - gone + FilesOf(blobs, now) - more
  {
    hide Run, FilesOf, StateAfter, Hashes, Upserted, OneEach, SizedBlobs, UpsertAll, Sized, Added, Freed, ForgetRows, AfterEviction, Wrote,
         Elements;
    StandingStill(first, sizeOf);
    var going := InSomeOrder(gone);
    var later := InSomeOrder(more);
    var room := Forget(going, now);
    OneMoreStep(first, [], room, sizeOf);
    var s1 := [] + [room];
    var made := StateAfter(first, s1);
    ForgetKeepsCount(first.rows, gone, now, sizeOf);
    UpsertedIsUpsert(made.rows, stored, blobs, bundle, now, sizeOf);
    WritingRuns(made, who, blobs, now, sizeOf);
    RunsJoin(first, s1, Writing(who, blobs, now), sizeOf);
    var s2 := s1 + Writing(who, blobs, now);
    var wrote := StateAfter(first, s2);
    WroteMeans(made, wrote, who, blobs, now);
    var commit := Commit(who, blobs, bundle, now);
    OneMoreStep(first, s2, commit, sizeOf);
    var s3 := s2 + [commit];
    var settle := Forget(later, now);
    OneMoreStep(first, s3, settle, sizeOf);
    var s4 := s3 + [settle];
    var evict := EvictingIsAStep(StateAfter(first, s4), rows, results, maxRows, sizeOf);
    OneMoreStep(first, s4, evict, sizeOf);
    steps := s4 + [evict];
  }

  lemma WroteMeans(first: State, state: State, who: nat, blobs: seq<Blob>, now: nat)
    requires Wrote(first, state, who, blobs, now)
    ensures state.files == first.files + FilesOf(blobs, now) && state.rows == first.rows && state.results == first.results
    ensures Hashes(blobs) <= state.Written(who)
  {
  }

  lemma LastStep(first: State, steps: seq<Step>)
    requires steps != []
    ensures StateAfter(first, steps) == After(StateAfter(first, steps[..|steps| - 1]), steps[|steps| - 1])
  {
    hide After;
  }

  lemma {:induction false} RunsJoin(first: State, steps: seq<Step>, more: seq<Step>, sizeOf: Hash -> nat)
    requires Run(first, steps, sizeOf) && Run(StateAfter(first, steps), more, sizeOf)
    ensures Run(first, steps + more, sizeOf) && StateAfter(first, steps + more) == StateAfter(StateAfter(first, steps), more)
    decreases |more|
  {
    hide Run, Enabled, After, StateAfter;
    if more == [] {
      assert steps + more == steps;
      StandingStill(StateAfter(first, steps), sizeOf);
    } else {
      LastStep(StateAfter(first, steps), more);
      var n := |more| - 1;
      FrontRuns(StateAfter(first, steps), more, sizeOf);
      RunsJoin(first, steps, more[..n], sizeOf);
      OneMoreStep(first, steps + more[..n], more[n], sizeOf);
      assert steps + more[..n] + [more[n]] == steps + more;
    }
  }
}
