# tine: a verified model

This project models the parts of tine whose correctness is hardest to see by reading them, and proves
what they are for.

- **Overlay storage** (`Names`, `Overlay`, `Rootfs`, `RootfsCapture`, `RootfsSteps`, `RootfsTheorems`,
  `IdleMarks`, `OpaqueMarks`).
  A layer leaves overlayfs as a tree with whiteouts and opaque directories, is stored as plain files with
  marker names, and is mounted again as a sandwich of sparse directories above and below the stored tree.
  `Overlay.Lookup` is the kernel's path lookup in a list of lower directories and `Overlay.Merge` a view
  computed from the bottom up; the two are proved to agree. The main theorem is
  `RootfsTheorems.CapturePreservesLookups`: for every history of captured layers, every upper directory and
  every path, mounting the upper over the reconstructed lowers and mounting the reconstruction of the
  captured result show the same.
- **The build cache** (`Utf8`, `Wire`, `Reapi`, `Outputs`, `Bundle`, `BundleName`, `Signing`, `Pointer`, `Store`,
  `StoreInterleavings`, `Shim`, `ActionCaching`, `EndToEnd`, `Protocol`). A bounded local store whose index
  must agree with its files, a publish and fetch protocol over a dumb bucket, and the codecs that connect
  them. `Store`, `Local`, `Bucket` and `ActionCache` are classes; each method's contract gives the new state
  as a function of the old one. `EndToEnd.BuildThenRead` composes all of them: what a builder publishes a
  reader gets, byte for byte. `Protocol` and `StoreInterleavings` are state machines over every
  interleaving of publishers, expiry, threads and kills; `Protocol.UpdateAsSteps` shows that what the
  methods do to a bucket, whatever becomes of each request, is a run of the former, and
  `StoreInterleavings.BatchIsARun` and those beside it that what they do to a store is a run of the latter.
- **Version order** (`Version`, `VersionOrder`, `Lexicographic`). The two-cursor loop is proved to compute the
  lexicographic order of a key taken from each string alone, and that order is then stated of the strings:
  which markers, ends, words and numbers sort before which.
- **newc archives** (`Cpio`). The reader gives back what the writer wrote, at any offset in any byte string.
- **Kernel modules** (`ModuleClosure`, `Firmware`). The dependency closure is exactly reachability; the
  paths a firmware file is packed with are compared with an independent definition of path resolution.
- **Manifests** (`Manifest`, `Listing`, `Roots`, `Merging`), **sparse disks** (`SparseBlocks`), **catalog
  pins** (`Pins`, `Catalog`) and **Buck configuration** (`GeneratedBlock`, `Buckconfig`, `Rendering`,
  `Values`, `RefreshedBlock`).

`Bytes`, `Options`, `Sorting`, `Sums`, `TextOrder` and `Texts` are shared vocabulary.

Where the source is a loop over state, the model is a method with that loop, proved to compute a
specification function; the theorems are about the function. `dafny verify dfyconfig.toml` checks everything.

## What the hypotheses mean

- SHA-256 is a function parameter `sha`. No function from all byte strings to 64 hex characters is
  injective, so none is assumed to be: `NamesBytes(sha)` only says that it produces 64 lower-case hex characters,
  and a conclusion that would need injectivity has the collision as its other case (`NameDeterminesMembers`,
  `OneNameOneBundle`) or asks the blobs at hand to agree (`Agree`, `Deliverable`).
- `sizeOf` gives the size a digest's hash stands for. The store's upsert never updates `size`
  (remote_cache/store.py:264-268), so the byte count would be wrong if one hash came with two sizes.
  `OneSize` and `OneSizePerHash` say it of files and served bundles whose bytes do hash to their names.
- Files may rot: nothing asks that a file on disk holds the bytes it is named after. What reading gives is
  `Readable`, and `LosesOnlyRot` says what reading may drop. `Genuine`, that all files are intact, is never
  required; every method keeps it.
- A `Network` says what becomes of each request of a publication: answered, lost, or carried out without an
  answer. A read fails for the keys that are `down`.
- A signature is an abstract `trust`: a key lookup and a verification relation.
- `Clean` names start with neither `.wh.` nor `.esc.`; true names in every layer are clean.
- `evictedDownTo` is the parameter between 0 and the bound that the store evicts down to.

## Where the code does less than it could be read to promise

Each of these is proved, with the input that shows it; an exact condition is given where the code meets the
property for some inputs and not for others.

- Dropping an opaque mark that hides nothing (rootfs/rootfs.py:182-189) is right over the lowers the
  layer was captured over. Over any others it is right exactly if every name they show at a dropped mark is
  covered by the layer itself: `CapturedElsewhereExactlyIf`, with `IdleMarksNeedTheirLowers` where it is not.
- `carry` packs the paths `_chase` yields and their parents. A link target such as `d/../b` makes resolution
  pass through `d`, which is then not packed. `CutResolvesExactlyIf` says exactly when any cut of the tree that
  holds these paths resolves like the whole one, and `PackedResolvesExactlyIf` when what all names pack
  together does; `SteppingOutLosesAFile` is a tree where it does not; `ForwardLinksPackWhole` shows that targets
  whose `..` all come first are always safe.
- A pointer written late outlives its bundle: the lifetime counts from when its publication began, not from
  the pointer's own date (`YoungPointersFindTheirBundles`, and for any delay
  `LatePointersOutliveTheirBundles`).
- A row can be committed as present after another thread evicted its file (`PresentWithoutFile`), until the
  store is next opened or the blob is asked for; the byte count stays exact through it. Present rows have
  their files throughout a run exactly if no file goes between its last write and the commit of its row, or
  while its row is present: `PresentRowsKeepFilesExactlyIf`, and `StepKeepsFilesExactlyIf` for one step.
- A publication whose upload succeeds and whose pointer fails leaves the bundle behind, and no pointer
  (`PublishingIsSafe`).
- Listing under several roots follows the roots' plain string order, so it is not always in manifest order:
  `RootsListInOrderExactlyIf` and `ScopedRootsCanBeOutOfOrder` (`a.x` before `a/x`).
- `merge` keeps a source's tokens apart from those before it exactly if the tokens that survive in it count
  from 1 (`PartsKeptApartExactlyIf`); from 0 they would mix (`TokensFromZeroWouldMix`).
- A buckconfig value is read back exactly if `buckconfig_value_round_trips` accepts it
  (`ReadsBackExactlyIf`); a refused one ends in a backslash, has space around it or holds a line feed.
- A rendered configuration is read back exactly if entries outside any section come first
  (`RenderedReadsBackExactlyIf`); written after a section they join it (`UnnamedAfterAnotherIsLost`). A file's
  unnamed entries come first, so of what `render_project_buckconfig` reads only a `[]` marker brings this about.
- The last of several ignores stands on a line of its own. If it reads as a marker of the generated block, the
  file that was written is refused from then on: `RefreshingExactlyIf`, `MarkerNamedIgnoreIsRefused`.
- Moving pins along a chain would mix two groups, which is why `_advance` refuses a move onto a snapshot in
  use (`MovingAlongAChainMixesGroups`).

## Model

| member | source | states |
|---|---|---|
| Names.UnescapeInvertsEscape | rootfs/rootfs.py:42-50 | Unescaping gives back every escaped name, and a name stored without the prefix is stored as itself |
| Names.EscapeIsInjectiveAndStorable | rootfs/rootfs.py:42-46 | No two names share a stored form, and no stored form holds a backslash |
| Names.ClassifyInvertsEscape | rootfs/rootfs.py:61-68 | A stored name decodes to a normal entry of its true name exactly if the true name is no marker |
| Names.ClassifyInvertsWhiteoutMarker | rootfs/rootfs.py:61-79 | A whiteout marker decodes to hiding its target, for every target but the one whose marker is the opaque mark |
| Names.MarkersAreNotClean | rootfs/rootfs.py:33-46 | Neither a marker, nor the opaque mark, nor an escaped form can be a true name |
| Names.PrefixIsTakenOff | rootfs/rootfs.py:49-68 | Any name that carries the escape prefix is decoded without it, and is then a mark, a whiteout or an entry |
| Overlay.MergeAt | rootfs/rootfs.py:131-141 | The merged view's entry under a name is the merge of the entries that a top-to-bottom scan collects: a whiteout hides, a non-directory ends merging, an opaque directory is the last merged |
| Overlay.LookupIsFindInMerge | rootfs/rootfs.py:131-141 | Looking a path up layer by layer, as the kernel does, finds what the merged view holds, for every path |
| RootfsTheorems.ThawInvertsStore | rootfs/rootfs.py:87-101 | Thawing a stored subtree gives back the native one, whiteouts and opaque marks included |
| RootfsTheorems.SandwichShowsUpper | rootfs/rootfs.py:104-141 | Above, stored delta and below, merged over any clean view, show what the native upper shows over it |
| RootfsTheorems.DroppingShowsTheSame | rootfs/rootfs.py:182-189 | Opaque marks dropped where no lower has the path change nothing over a view of those lowers |
| RootfsTheorems.ShownIsStored | rootfs/rootfs.py:151-160 | Whatever the layers show at a path, some stored lower has an entry there, so asking the stored lowers is enough |
| RootfsTheorems.InLowerExactlyIf | rootfs/rootfs.py:151-160 | At any depth, a captured layer is found to have a path exactly if its native tree has something there that is no whiteout |
| RootfsTheorems.CaptureShowsUpper | rootfs/rootfs.py:163-192 | The captured delta in its sandwich over the native lowers shows what the upper does |
| RootfsTheorems.StoredLayersShowNativeLayers | rootfs/rootfs.py:131-141 | The reconstruction of any history of captured layers has the merged view of the native layers, and only clean names in it |
| RootfsTheorems.CapturePreservesLookups | rootfs/rootfs.py:42-192 | For every history, upper and path, the mount before capture and the mount of the reconstruction after it give the same lookup, and no marker name is ever found |
| RootfsTheorems.ReconstructedRoots | rootfs/rootfs.py:131-141 | Every reconstructed component is a directory that can stand in a lowerdir list without hiding those beneath it |
| OpaqueMarks.MarksKeptExactlyIf | rootfs/rootfs.py:163-192 | A delta holds every entry under its escaped path as it was, and the opaque marker in exactly the opaque directories, less those at whose path no native layer below has anything |
| OpaqueMarks.StoredHistoryHasExactlyIf | rootfs/rootfs.py:151-160 | Some stored lower has a path exactly if some native layer does |
| IdleMarks.DroppingIsHarmlessExactlyIf | rootfs/rootfs.py:182-189 | Over any view whatever, a layer without its idle marks shows what it did with them exactly if each name the view shows at a dropped mark is covered by an entry of the layer that hides it |
| IdleMarks.CapturedElsewhereExactlyIf | rootfs/rootfs.py:163-192 | A delta captured over some lowers and mounted over others shows what its upper does exactly under that condition |
| IdleMarks.HarmlessOverItsLowers | rootfs/rootfs.py:182-189 | Over any view of the lowers it was captured over, the condition holds of every layer |
| IdleMarks.IdleMarksNeedTheirLowers | rootfs/rootfs.py:182-189 | A delta captured without lowers, put over a layer that has the directory, shows a file the upper had hidden |
| RootfsSteps.ThawEntry | rootfs/rootfs.py:87-101 | The recursive copy over a directory's children in any order produces the thawed tree |
| RootfsSteps.Markers | rootfs/rootfs.py:104-128 | The walk over a delta's entries, listed in any order, lays exactly the above and below layers, skipping what is inside escaped directories |
| RootfsSteps.AboveOfAll | rootfs/rootfs.py:104-128 | Once every entry was visited, the entries laid above are the whole above layer |
| RootfsSteps.BelowOfAll | rootfs/rootfs.py:112-118 | Once every entry was visited, the opaque directories laid below are the whole below layer |
| RootfsSteps.SandwichList | rootfs/rootfs.py:135-140 | One layer adds above, itself and below to the list, each only if used |
| RootfsSteps.ReconstructList | rootfs/rootfs.py:131-141 | The loop over reversed lowers yields the reconstruction, whose merge is the merge of the native layers |
| RootfsCapture.CaptureInPlace | rootfs/rootfs.py:163-192 | Rewriting entries one at a time, deepest first, ends in the captured tree, for any listing of the tree in that order |
| RootfsCapture.CaptureOne | rootfs/rootfs.py:173-192 | Rewriting one entry whose contents are rewritten takes the tree from one intermediate state to the next |
| RootfsCapture.RewrittenIsStored | rootfs/rootfs.py:173-192 | An entry whose contents are captured becomes its stored form, its mark kept exactly if a lower has the path |
| RootfsCapture.CapturedWhole | rootfs/rootfs.py:173-192 | With every entry visited the intermediate tree is the capture |
| Version.SkipSeparators | image/version.py:11-14 | Advances to the first character the specification gives a meaning |
| Version.PrefixEnd | image/version.py:17-20 | Advances past the longest run of digits, or of letters |
| Version.SignificantFrom | image/version.py:62-67 | Advances past leading zeros and no further |
| Version.CompareSegments | image/version.py:54-91 | A pair of segments decides exactly when the keys that remain differ there; undecided, both cursors pass the segment |
| Version.Compare | image/version.py:23-91 | The loop terminates and returns the lexicographic order of the two strings' keys, which the rows of VersionOrder describe |
| Version.DigitTestComparesNumbers | image/version.py:62-77 | Stripping zeros, comparing lengths and then strings compares the natural numbers denoted, at any length |
| Version.CompareIsATotalPreorder | image/version.py:23-91 | The comparison is reflexive, sign-antisymmetric, transitive, and ties exactly where keys are equal: it can sort |
| VersionOrder.Alphabets | image/version.py:6-8 | Exactly the ASCII digits, letters and four markers mean something |
| VersionOrder.TildeComesFirst | image/version.py:31-38 | A version followed by a tilde and anything sorts before the version |
| VersionOrder.EndComesBefore | image/version.py:40-43 | A version sorts before itself followed by any other marker or another segment |
| VersionOrder.MarkersInOrder | image/version.py:45-52 | After the same version a hyphen sorts before a caret, a caret before a dot, a dot before a segment, whatever follows |
| VersionOrder.LettersBeforeDigits | image/version.py:54-60 | After the same version and the same marker or none, a word sorts before a number |
| VersionOrder.NumbersByValue | image/version.py:62-81 | There, numbers compare by value at any length and with any zeros, and of equal ones what follows decides |
| VersionOrder.WordsByCharacters | image/version.py:83-91 | There, words compare character by character, and of equal ones what follows decides |
| VersionOrder.ValueIsDecimal | image/version.py:62-77 | The value of a run of digits is the number it spells in base ten |
| VersionOrder.SeparatorsAreIgnored | image/version.py:11-14 | Any other character in front of a version or after its last segment makes no difference |
| Lexicographic.OrderAntisymmetric | image/version.py:23-91 | Swapping the sides of the key order flips its sign, and only equal keys tie |
| Lexicographic.OrderTransitive | image/version.py:23-91 | The key order is transitive, strictly so where one step is strict |
| Store.Store.constructor | remote_cache/store.py:133-152 | A store opened on any index and files is settled, within its bound, holds the empty blob, has lost no bundle, and holds no rot that was not there |
| Store.Store.Reconcile | remote_cache/store.py:213-234 | Rows without a file become absent but keep their bundle, files without a present row go, and the byte count is exact |
| Store.Store.CountMissing | remote_cache/store.py:256-257 | Counts the bytes of the batch that are not present yet |
| Store.Store.WriteFiles | remote_cache/store.py:259-262 | Writes exactly the batch's files |
| Store.Store.Commit | remote_cache/store.py:263-272 | Commits the batch's rows: each present, dated, its bundle replaced only by a new one; the byte count grows by what was missing |
| Store.Store.MakeRoom | remote_cache/store.py:256-258 | Afterwards the batch fits, or nothing but the batch is left to evict; nothing goes if it already fits |
| Store.Store.SettleBound | remote_cache/store.py:273-275 | Brings a store back within its byte bound and its row bound, evicting nothing if it is within them |
| Store.Store.PutBlobs | remote_cache/store.py:242-275 | All or nothing by hash and size; within the bound afterwards; a batch that fits the bound is wholly present with its bytes; no other blob's bundle changes; with room nothing is lost |
| Store.Store.StoreBatch | remote_cache/store.py:256-275 | The exact rows and files after the two evictions and the row eviction |
| Store.Store.ReadBlob | remote_cache/store.py:282-303 | Returns bytes that hash to their name and counts them as used; drops a rotten file, keeping its row and bundle |
| Store.Store.Use | remote_cache/store.py:315-326 | Answers presence at the right size and counts only that blob as used |
| Store.Store.HasBlobs | remote_cache/store.py:305-313 | Answers for each digest in order, refuses a list with a name that is no hash, and counts as used exactly those that are here |
| Store.Store.RememberAll | remote_cache/store.py:338-351 | The named blobs now know this bundle; nothing becomes present or absent; other bundles stay |
| Store.AttributedAfterwards | remote_cache/store.py:338-365 | What the index names as a bundle's members after remembering is what it named before and these blobs; every other bundle loses exactly these |
| Store.RememberedRows | remote_cache/store.py:338-351 | Remembering dates each blob named, makes an absent row where there was none, and leaves every other row alone |
| Store.Store.PutResult | remote_cache/store.py:367-375 | Keeps the pointer under the action, then drops the oldest rows over the row bound |
| Store.Store.Forget | remote_cache/store.py:412-432 | Removes the files, marks the rows absent without losing their bundles, and takes off the byte count each present blob once, also where a hash is named twice |
| Store.Store.Evict | remote_cache/store.py:434-470 | Evicts, in order of last use, a prefix of the non-empty blobs it may, and no more than needed; then the arriving bytes fit or nothing evictable is left |
| Store.LeastUsed | remote_cache/store.py:445-467 | The walk over blobs by last use stops with enough freed, one fewer would not have been enough |
| Store.LeastUsedGoFirst | remote_cache/store.py:434-467 | What an eviction takes is here, worth something, not being kept, and last used before, or as long ago as but first by name, any such blob that stays; the empty blob always stays |
| Store.Store.EvictRows | remote_cache/store.py:472-508 | Drops the oldest absent rows and results, never a present row, until the row bound holds or none is left |
| Store.OldestRows | remote_cache/store.py:488-498 | The rows to drop are the oldest droppable ones and as many as asked for, or all |
| Store.OldestGoFirst | remote_cache/store.py:472-498 | What the row bound takes is an absent blob's row or a result, seen no later than any that stays |
| Store.ForgetKeepsCount | remote_cache/store.py:412-432 | Forgetting keeps the count equal to the sizes of present rows |
| Store.ForgottenRow | remote_cache/store.py:412-432 | Forgetting marks the row absent and dates it from then, and leaves every other row, size and bundle alone |
| Store.RoomToKeep | remote_cache/store.py:338-375 | With room for them, a pointer and the bundles of its blobs survive both row evictions |
| StoreInterleavings.StepKeepsCount | remote_cache/store.py:242-275 | Every locked section, and every file step outside the lock, keeps the byte count equal to the sizes of present rows |
| StoreInterleavings.StepKeepsProvenance | remote_cache/store.py:412-508 | No step takes a row's bundle away, and only row eviction drops a row, an absent one |
| StoreInterleavings.EveryRunKeepsCount | remote_cache/store.py:242-508 | The byte count is exact after every run of any threads' sections, each committing only what it wrote |
| StoreInterleavings.EveryKillIsSettled | remote_cache/store.py:213-234 | After any interleaving, a kill that leaves any files behind, and a restart, files equal present rows, the count is exact, and every row keeps its bundle |
| StoreInterleavings.StoringIsARun | remote_cache/store.py:259-272 | Writing a batch and committing it is such a run, which leaves its files here, its rows present and the count exact |
| StoreInterleavings.BatchIsARun | remote_cache/store.py:256-275 | Whatever storing a batch is proved to leave, evictions before and after it included, a run of sections leaves |
| StoreInterleavings.RememberingIsARun | remote_cache/store.py:338-351 | And so with remembering where blobs came from |
| StoreInterleavings.KeepingIsARun | remote_cache/store.py:367-388 | And with keeping a result, and dropping one |
| StoreInterleavings.ReadingIsARun | remote_cache/store.py:282-303 | And with reading a blob, intact or not |
| StoreInterleavings.StepKeepsFilesExactlyIf | remote_cache/store.py:242-275 | A step leaves every present row its file exactly if a commit finds all its batch's files there, and an eviction or lost file has no present row left |
| StoreInterleavings.PresentRowsKeepFilesExactlyIf | remote_cache/store.py:242-432 | In a run every present row has its file at every moment exactly if no file goes between its last write and a commit of its row, or while its row is present |
| StoreInterleavings.PresentWithoutFile | remote_cache/store.py:259-272 | A thread's commit after another evicted what it wrote leaves a present row without a file; the same commit right after the write does not |
| Wire.VarintRoundTrip | remote_cache/wire.py:25-39 | A varint followed by anything decodes to its value and consumes exactly its bytes, if and only if it has at most the allowed bytes |
| Wire.ReadVarint | remote_cache/wire.py:25-39 | The shifting loop computes the varint's value and end, or refuses it |
| Wire.WriteVarint | remote_cache/wire.py:136-145 | The loop writes the varint's bytes |
| Wire.ReadFirst | remote_cache/wire.py:50-70 | One turn of the reader takes one field of any wire type, or refuses |
| Wire.ReadFields | remote_cache/wire.py:42-70 | The reader's loop yields the fields of a message, or refuses it |
| Wire.FieldsOfConcatenation | remote_cache/wire.py:42-70 | The fields of a well-formed message followed by anything are its fields followed by the rest's |
| Wire.FieldRoundTrip | remote_cache/wire.py:132-173 | A written field reads back as itself before whatever follows |
| Wire.FieldsRoundTrip | remote_cache/wire.py:132-173 | A message written field by field reads back field by field |
| Wire.PackedRoundTrip | remote_cache/wire.py:122-129 | A packed list of integers unpacks to itself |
| Utf8.TextRoundTrip | remote_cache/wire.py:103-105 | Every text survives being sent as UTF-8 and decoded by a decoder that replaces what is none |
| Utf8.ReadOnlyFromItsBytes | remote_cache/wire.py:103-105 | A character is read only from exactly the bytes it is written as |
| Utf8.ReplacedIsLongest | remote_cache/wire.py:103-105 | What is no UTF-8 is replaced piece by piece: one byte that begins no character, or all of those that begin one and do not finish it |
| Wire.IndexFields | remote_cache/wire.py:80-86 | The dictionary a message is read into holds each number's fields in order |
| Wire.ConcatenatedValues | remote_cache/wire.py:88-120 | The values of one number in a concatenation are those of the parts, in order, so the last one wins |
| Reapi.PartsRoundTrip | remote_cache/reapi.py:46-407 | A message written by any sequence of writer calls reads back number by number, with unknown fields after it |
| Reapi.DigestRoundTrip | remote_cache/reapi.py:46-64 | A digest parses back from its bytes, with unknown fields appended |
| Reapi.DigestListRoundTrip | remote_cache/reapi.py:174-194 | A list of digests parses back in order |
| Reapi.UploadRoundTrip | remote_cache/reapi.py:207-227 | An uploaded blob parses back; a missing digest stays missing |
| Reapi.ReceiptRoundTrip | remote_cache/reapi.py:230-254 | What came of an upload parses back, its status set |
| Reapi.AnswerRoundTrip | remote_cache/reapi.py:269-294 | A blob that was read parses back with its bytes and status |
| Reapi.BatchRoundTrip | remote_cache/reapi.py:207-294 | A whole batch of uploads, receipts or answers parses back in order, with unknown fields appended |
| Reapi.UpdateActionResultRoundTrip | remote_cache/reapi.py:149-171 | A result that was parsed once is carried through by its own bytes |
| Reapi.WriteRequestRoundTrip | remote_cache/reapi.py:329-352 | A write request parses back, the finish flag included |
| Reapi.CapabilitiesRoundTrip | remote_cache/reapi.py:379-411 | Capabilities parse back from two levels of nested messages with a packed list |
| Reapi.CapabilitiesNameVersions | remote_cache/reapi.py:380-399 | Whoever reads them finds the lowest version spoken, 2.0, and the highest, 2.3, each once, whatever unknown fields come after |
| Reapi.VersionReadsBack | remote_cache/reapi.py:410-411 | A version reads back as its two numbers |
| Reapi.FunctionsInAnyForm | remote_cache/reapi.py:401-407 | Digest functions are read packed, in several fields, or one by one |
| Outputs.TreeReadsBack | remote_cache/reapi.py:124-133 | A tree written by a client, unknown fields at every level included, names the digests of its root's files and then of each directory below, in order |
| Outputs.ProductReadsBack | remote_cache/reapi.py:99-113 | A result written by a client parses to its files' digests, its directories' trees and its two streams, in order, kept as its own bytes |
| Outputs.NamesExactlyIf | remote_cache/reapi.py:117-121 | A digest is named exactly if it is that of a file, a tree or a stream |
| Outputs.LastOneWins | remote_cache/wire.py:88-110 | Of several values of one field, and of several nested messages, the last is read |
| Bundle.Pack | remote_cache/bundle.py:33-40 | Writes the bundle of its blobs in hash order, whatever order they came in |
| Bundle.UnpackBundle | remote_cache/bundle.py:43-64 | The offset loop yields the members, or refuses a truncated header, a truncated blob or a blob that does not hash to its name |
| Bundle.UnpackInvertsPack | remote_cache/bundle.py:33-64 | Packed members followed by anything unpack to the members followed by the rest |
| Bundle.PackedBundleUnpacks | remote_cache/bundle.py:33-64 | Packing and unpacking blobs kept under their own hashes gives back the same blobs |
| Bundle.UnpackedMembersAreGenuine | remote_cache/bundle.py:43-64 | Whatever bytes were served, unpacked members hash to their names and are together no larger than the bytes |
| Bundle.BigEndianRoundTrip | remote_cache/bundle.py:33-40 | A length reads back from its fixed-width field |
| BundleName.BundleNameOf | remote_cache/bundle.py:21-30 | The running digest over a sorted listing depends on the set of members alone |
| BundleName.ListingIsInjective | remote_cache/bundle.py:21-30 | Two lists of digests with one listing are one list: lines cannot be confused |
| BundleName.DecimalIsInjective | remote_cache/bundle.py:28 | Two sizes never print alike |
| BundleName.DecimalIsBaseTen | remote_cache/bundle.py:28 | Sizes are spelled in base ten |
| BundleName.NameDeterminesMembers | remote_cache/bundle.py:21-30 | Two member sets with one name are equal, or exhibit a hash collision |
| Signing.SignedIsInjective | remote_cache/signing.py:84-93 | The signed message determines both action and payload |
| Signing.SignedInParts | remote_cache/signing.py:84-93 | What is signed is the purpose, the action and the payload, one after another |
| Signing.SplitInvertsWrap | remote_cache/signing.py:151-191 | Splitting an envelope gives back key, algorithm, signature and payload |
| Signing.UnwrapInvertsWrap | remote_cache/signing.py:310-320 | A payload signed by a trusted key for an action is accepted for it |
| Signing.AcceptedWasSigned | remote_cache/signing.py:310-320 | What is accepted for an action was signed for that very action and payload |
| Pointer.AcUnpackInvertsPack | remote_cache/shim.py:71-82 | A pointer unpacks to itself, with unknown fields appended |
| Pointer.Proven | remote_cache/shim.py:464-487 | A bundle is accepted exactly if the result resolves out of it, it holds those blobs and no others, and the set makes the bundle's name |
| Pointer.SameTreesSameFiles | remote_cache/shim.py:244-260 | Resolving a result depends only on the bytes of the trees it names |
| Pointer.PackedPointerIsUnsigned | remote_cache/shim.py:364-378 | An unsigned pointer never looks like a signed envelope |
| Pointer.SignedNeedsKeys | remote_cache/shim.py:364-378 | Without keys whatever looks signed is refused, and with keys whatever they do not verify |
| Shim.Local.FetchBundle | remote_cache/shim.py:192-229 | The members of the object served, if it is within the bound and unpacks; exactly an object that came and does not unpack taints its name |
| Shim.FetchedIsGenuine | remote_cache/shim.py:192-229 | Fetched members hash to their names and fit into what was served |
| Shim.Local.FetchedFits | remote_cache/shim.py:192-229 | A bundle fetched under the store's bound fits into the store |
| Shim.Local.Admit | remote_cache/shim.py:236-241 | Every member that fits is here afterwards with the bundle's bytes, and knows the bundle |
| Shim.Local.Refill | remote_cache/shim.py:185-188 | Takes from a bundle that came all of what the index attributes to it and nothing else, and changes no row's bundle; a bundle that did not come changes nothing |
| Shim.Local.Wanted | remote_cache/shim.py:172-175 | The missing blobs, sorted by the bundle the index attributes each to, in order |
| Shim.Local.RefillAll | remote_cache/shim.py:176-189 | Each wanted bundle is refilled only if needed; with one bundle wanted, or with room for what all of them bring, everything wanted is here afterwards and nothing that was here has gone; no row changes its bundle; only what came and does not unpack is tainted |
| Shim.Local.Absent | remote_cache/shim.py:167-168 | Exactly the digests that are not here at their size |
| Shim.Local.Ensure | remote_cache/shim.py:165-190 | True means all are here; blobs that are here cost no fetch; it is true if every missing blob is in the bundle that the index attributes it to and the bucket serves, and either that is one bundle or there is room for what all of them bring |
| Shim.Local.ObtainableTogether | remote_cache/shim.py:172-189 | Blobs that are each in the bundle they are attributed to are asked of exactly those bundles, and fit in together if all they bring does |
| Shim.Local.Blob | remote_cache/shim.py:153-163 | What is returned hashes to the digest; a blob evicted or rotten on disk is read again out of the bundle the index knows, if that is served; an intact one is read as it is |
| ActionCaching.ActionCache.ResolveFromStore | remote_cache/shim.py:244-260 | The loop over trees resolves the result out of what the store can read, and loses at most a rotten file |
| ActionCaching.ActionCache.ResolveThroughLocal | remote_cache/shim.py:318 | Resolving through refills names blobs only through trees read under their own hashes, and resolves evicted trees as their bundle does |
| ActionCaching.ActionCache.ResolveHere | remote_cache/shim.py:435-436 | Whether the store alone backs a result: trees read, every blob here at its size |
| ActionCaching.LocalResolution | remote_cache/shim.py:435-442 | A store whose readable blobs agree with an offer resolves its result as the offer does, or not at all |
| ActionCaching.OfferedIsBacked | remote_cache/shim.py:430-442 | Skipping the bundle when all is here answers as the bundle would have |
| ActionCaching.ActionCache.RestorableResolves | remote_cache/shim.py:303-329 | A proven bundle that evicted blobs can be had back from resolves the kept result, trees included |
| ActionCaching.DeliveredResolves | remote_cache/shim.py:443-462 | Once a proven bundle is in the store, its result resolves out of the store with every blob here |
| ActionCaching.ActionCache.KeptPointer | remote_cache/shim.py:380-401 | A kept pointer is trusted as if it had just come, or dropped |
| ActionCaching.ActionCache.Keep | remote_cache/shim.py:437-440 | Keeps the pointer and teaches its blobs their bundle; with room both are exact |
| ActionCaching.ActionCache.TakeIn | remote_cache/shim.py:453-454 | A proven bundle is wholly in the store afterwards, with its pointer kept if there is room |
| ActionCaching.ActionCache.FetchWhole | remote_cache/shim.py:443-462 | A bundle is taken in exactly if it unpacks and is proven; otherwise nothing reaches the store, and it is tainted exactly if it came |
| ActionCaching.ActionCache.Fetch | remote_cache/shim.py:403-462 | Found exactly if a trusted pointer is served whose result is all here or whose bundle is there and proves it; an error exactly if its result is malformed; nothing otherwise, which loses nothing but rot. What the bucket offers is delivered, over rot too; rows learn exactly the bundle the trusted pointer names, for the blobs it is for; only a bundle that came and is disproved is tainted |
| ActionCaching.ActionCache.Back | remote_cache/shim.py:318-329 | A result is backed by what is here without a fetch, or out of its bundle; an answer of failure means that a name is no digest or a tree no tree, and a miss that some blob named is not here |
| ActionCaching.ActionCache.Get | remote_cache/shim.py:303-329 | Whatever has rotted, a hit is vouched for by a trusted pointer, every blob it names is here, and no row changes its bundle but as a fetched pointer says. Kept or from the bucket, a result that is all here is a hit; evicted blobs of a kept one are had back from its bundle if the bucket still serves that; what the bucket offers is a hit. A miss is a missing pointer, a bundle that is gone or disproved, or a blob that is not here; failure is only ever a malformed result |
| ActionCaching.ActionCache.Prepare | remote_cache/shim.py:489-512 | What would be kept and published for a result, or why not, from what the store can read |
| ActionCaching.ActionCache.PreparedIsBacked | remote_cache/shim.py:489-512 | A result is ready exactly if the store backs it and the signer signs; the name is that of its blobs |
| ActionCaching.ActionCache.Gather | remote_cache/shim.py:545-552 | Reads every named blob exactly if all of them can be read; gives up at a rotten one, and loses nothing else |
| ActionCaching.NothingToLose | remote_cache/store.py:282-303 | A store without rot loses no file and no row to reading |
| ActionCaching.ActionCache.PublishBundle | remote_cache/shim.py:527-554 | Refreshes an existing bundle that is not tainted, uploads otherwise; done exactly if the bucket answered that it holds the bundle, which is then untainted |
| ActionCaching.ActionCache.Publish | remote_cache/shim.py:514-567 | The objects, the tainted names, the answer and the rows after a publication, for every outcome of its three requests and any rot |
| ActionCaching.PublishingIsSafe | remote_cache/shim.py:514-567 | For every outcome: a new pointer is there only with its bundle, sound bundles and all other objects are untouched, nothing goes, and a publication whose pointer is not written leaves the objects as they were or with the bundle alone |
| ActionCaching.ActionCache.KeepAndPublish | remote_cache/shim.py:349-361 | The pointer is kept here whatever the bucket does; published exactly if the bundle stands and the pointer is answered for |
| ActionCaching.ActionCache.Update | remote_cache/shim.py:331-362 | Each answer exactly when: bad requests, shims that cannot sign, results not all here, requests that failed; what is kept and what the bucket holds afterwards, for every outcome of the requests |
| EndToEnd.PayloadIsTrusted | remote_cache/shim.py:364-378 | A payload made by a signer is trusted by a reader of its key, and gives back pointer and result |
| EndToEnd.BackedIsProven | remote_cache/shim.py:464-512 | What a builder can back, its own bundle proves to any reader |
| EndToEnd.PublishedUnpacks | remote_cache/shim.py:527-554 | Under the published name lies a bundle that unpacks to the result's blobs, each hashing to its name |
| EndToEnd.BuildThenRead | remote_cache/shim.py:303-362 | A builder's upload followed by a reader's lookup is a hit with the identical result, every blob it names here; what the reader reads of them is what the builder had |
| Protocol.StepKeepsNames | remote_cache/shim.py:527-555 | No step of any publisher, nor expiry, puts under a bundle's key anything but that bundle |
| Protocol.StepKeepsStanding | remote_cache/shim.py:514-558 | Every step keeps each young publication's bundle present and dated since it began |
| Protocol.StepKeepsPointers | remote_cache/shim.py:555 | Every pointer in the bucket was written by some publication |
| Protocol.EveryRunIsSound | remote_cache/shim.py:514-558 | All three hold after every interleaving of any number of publishers, refreshes, uploads, failures and expiries |
| Protocol.YoungPointersFindTheirBundles | remote_cache/shim.py:514-558 | A pointer whose publication began at t finds its bundle, dated no earlier than t and unpacking to what its key names, as long as now is before t plus the lifetime |
| Protocol.OldPointersFindTheirBundles | remote_cache/shim.py:514-558 | The same for a pointer that a reader kept after it was replaced in the bucket |
| Protocol.YoungPointersAreOffers | remote_cache/shim.py:403-462 | In every reachable bucket a young pointer with its bundle is an offer that the lookup serves, or exhibits a hash collision |
| Protocol.OneNameOneBundle | remote_cache/bundle.py:21-30 | Two publications of one name publish the same members, or exhibit a hash collision |
| Protocol.LatePointersOutliveTheirBundles | remote_cache/shim.py:514-558 | For every lifetime, and every delay up to it between a publication's beginning and its pointer, a run in which the bundle is gone when the lifetime has passed since the beginning |
| Protocol.PublicationIsARun | remote_cache/shim.py:514-567 | From any sound state, what a publication leaves in the bucket, whatever becomes of its requests, is what a run of the protocol's steps leaves; a bundle that stands is dated now |
| Protocol.UpdateAsSteps | remote_cache/shim.py:331-362 | An upload by a client takes the bucket along such a run, to a sound state; a published one is a publication that began now and wrote the pointer |
| Cpio.RoundupIsNext | archive/cpio.py:35-36 | Rounding up gives the least multiple not below |
| Cpio.FieldRoundTrip | archive/cpio.py:218-231 | Eight hex digits carry every number below 2^32 |
| Cpio.FieldsSpell | archive/cpio.py:228-229 | A field is spelled in lower-case hex digits, eight of them or as many as the number takes, and reads back as the number |
| Cpio.DigitsRead | archive/cpio.py:82-84 | Digits of either case are read, and nothing else |
| Cpio.Writer.Header | archive/cpio.py:218-231 | Writes the header, the name padded towards a block if asked to, and the padding |
| Cpio.Writer.Pad | archive/cpio.py:214-216 | Pads to the next multiple of four |
| Cpio.Writer.Add | archive/cpio.py:233-257 | The archive is afterwards the records of all items so far |
| Cpio.Writer.AddDirectory | archive/cpio.py:233-234 | Appends a directory to what the archive holds |
| Cpio.Writer.AddLink | archive/cpio.py:236-240 | Appends a symlink whose payload is its target |
| Cpio.Writer.AddFile | archive/cpio.py:242-257 | Appends a file, block-aligned if it is large enough |
| Cpio.Writer.Close | archive/cpio.py:259-268 | The bytes are the whole archive, trailer included |
| Cpio.ReadRecord | archive/cpio.py:71-96 | One turn of the reader: an entry, the end, or a broken archive |
| Cpio.Read | archive/cpio.py:71-96 | The offset loop yields the entries up to the trailer, or stops where the archive breaks |
| Cpio.RecordReadsBack | archive/cpio.py:71-96 | A record at any offset in any bytes reads back as its item, its payload where the entry says |
| Cpio.ReadInvertsWrite | archive/cpio.py:71-268 | Reading an archive embedded anywhere yields exactly the items written, in order, each payload at its data offset |
| Cpio.OwnershipAndDates | archive/cpio.py:218-231 | Records belong to root, have one link, no devices and no checksum, and are dated no later than the epoch, earlier dates kept |
| Cpio.ModesTellKinds | archive/cpio.py:233-257 | Directories, files and links have their own file types, and the permissions they were given |
| Cpio.PaddingStopsAtPathMax | archive/cpio.py:218-231 | Name padding reaches the block boundary if the name fits before it, and never passes the longest path |
| Cpio.BlocksStartOnBlocks | archive/cpio.py:218-257 | A block-aligned payload starts on a block of the archive whenever its name fits before the boundary |
| Cpio.OthersAreNotAligned | archive/cpio.py:218-257 | Before any other payload there is only the name, its terminator and padding to four |
| ModuleClosure.Close | kmod/kmod.py:321-360 | Modules and missing are exactly the reachable names, resolved or not; requesters and firmware are exactly the reverse relations |
| ModuleClosure.Collect | kmod/kmod.py:321-360 | The same for the unsorted maps, whatever order the worklist is taken in |
| ModuleClosure.Work | kmod/kmod.py:326-353 | The worklist ends, with everything reachable recorded and nothing else |
| ModuleClosure.AddNeeds | kmod/kmod.py:348-353 | Records each dependency's requester, and queues those not seen |
| ModuleClosure.AddFirmware | kmod/kmod.py:345-347 | Records each firmware file's declarer, and no other field |
| ModuleClosure.ClosedHoldsChain | kmod/kmod.py:321-360 | A set closed under needs holds whatever a chain of needs leads to |
| Firmware.NextStop | kmod/kmod.py:374-381 | Walks to the next symlink, or to the end |
| Firmware.Chase | kmod/kmod.py:365-391 | The bounded loop yields each link on the way and the final path, or fails on too many links |
| Firmware.ChaseWalks | kmod/kmod.py:371-390 | Component by component, whether what is named is there or not: names are entered, links yielded and replaced by their targets, from the root or from the directory they are in |
| Firmware.ChasedPathsAreReal | kmod/kmod.py:365-391 | No yielded path has a link among its ancestors, all but the last are links, and the last is not |
| Firmware.PackedChaseIsTheSame | kmod/kmod.py:365-400 | Chasing in the tree cut down to the yielded paths and their parents yields the same paths |
| Firmware.ChaseEndsWhereResolved | kmod/kmod.py:365-391 | The last path is where path resolution ends, which is defined apart from the chase, with its own rule for absolute and relative targets |
| Firmware.ResolvedIsChased | kmod/kmod.py:365-391 | What resolves through n links is chased in n+1 turns |
| Firmware.PackedResolvesExactlyIf | kmod/kmod.py:394-400 | What the paths of all names pack together resolves a path like the whole tree exactly if every directory stepped out of again is packed |
| Firmware.CutResolvesExactlyIf | kmod/kmod.py:394-451 | The same of any part of the tree that has the parents of what it holds, and the paths the chase yields |
| Firmware.ForwardLinksPackWhole | kmod/kmod.py:394-451 | With link targets whose `..` all come first, any such part resolves the path to the file |
| Firmware.SteppingOutLosesAFile | kmod/kmod.py:394-400 | A path below the firmware directory that the packed part of a tree does not resolve |
| Manifest.PathsAreOrdered | image/manifest.py:251-257 | The manifest's order is a strict total order on paths |
| Manifest.PathOrderIsTransitive | image/manifest.py:251-257 | The manifest's order is transitive |
| Manifest.SplitInvertsJoin | image/manifest.py:251-257 | Splitting a name gives back the components it was joined from |
| Manifest.BetweenIsBelow | image/manifest.py:251-257 | Whatever sorts between a directory and its contents is in the directory |
| Manifest.ContentsFollowTheirDirectory | image/manifest.py:251-257 | In any sorted names a directory is followed immediately by all of its contents |
| Manifest.PlainOrderSeparatesContents | image/manifest.py:251-257 | Plain string order would put another name between a directory and its contents |
| Listing.List | image/manifest.py:142-150 | The recursive generator yields the listing of a directory |
| Listing.BelowIsOrdered | image/manifest.py:142-150 | A listing is strictly increasing in the manifest's order |
| Listing.ListsWhatIsThere | image/manifest.py:142-150 | Every node of the tree is listed under its path |
| Listing.ListsNothingElse | image/manifest.py:142-150 | Every listed entry is a node of the tree |
| Listing.CountInodes | image/manifest.py:160-162 | Counts how often each inode of a file that can be linked is reached |
| Listing.HardlinkTokens | image/manifest.py:153-167 | Exactly the inodes reached twice have a token, numbered from 1 in order of first appearance |
| Roots.Scope | image/manifest.py:103-116 | The loop keeps the sorted roots that no kept root covers |
| Roots.StripTakesSeparators | image/manifest.py:109 | Exactly the separators around a root go |
| Roots.ScopeCoversRoots | image/manifest.py:103-116 | Every root is covered, only roots are kept, and none is inside another |
| Roots.Entries | image/manifest.py:119-139 | Lists the whole tree, or what is found at each root, through symlinks or not, and below it |
| Roots.RootsListInOrderExactlyIf | image/manifest.py:119-139 | Listing under roots is in manifest order exactly if the roots that are found are |
| Roots.ScopedRootsCanBeOutOfOrder | image/manifest.py:103-139 | Two roots that `scope` keeps in an order that is not the manifest's |
| Merging.TakePart | image/manifest.py:269-279 | Taking one source in replaces its names and shifts its tokens past all earlier ones |
| Merging.Merge | image/manifest.py:260-288 | Every name once, in order, each from its last source with its token shifted |
| Merging.TokensKeepTheirGroups | image/manifest.py:260-288 | Two surviving entries share a token exactly if they came from one source with one token |
| Merging.HardlinksSurviveMerging | image/manifest.py:153-288 | Through token numbering and merging, two entries share a token exactly if they are one inode of one tree |
| Merging.TokensFromZeroWouldMix | image/manifest.py:269-279 | With a token 0, entries of two sources would share one |
| Merging.PartsKeptApartExactlyIf | image/manifest.py:269-279 | After any earlier source that counts from 1, a source shares no token with it exactly if its surviving tokens count from 1 |
| SparseBlocks.AllocatedBlocks | image/ami_import.py:51-67 | The walk over data extents yields, but for zero blocks, each block that is not all zero, whatever the extents |
| SparseBlocks.DecompressedBlocks | image/ami_import.py:70-78 | Reading block by block yields the same |
| SparseBlocks.DataBlocks | image/ami_import.py:81-91 | Both ways of reading a disk give the same filtered stream |
| SparseBlocks.YieldedInOrder | image/ami_import.py:81-91 | Block indices are strictly increasing, each inside the disk, each block non-zero and the disk's own |
| SparseBlocks.YieldedBlocksMakeTheDisk | image/ami_import.py:81-91 | Writing the yielded blocks over zeros reproduces the disk, zero-padded to whole blocks |
| Pins.PinsDoNotOverlap | tools/catalog.py:237-247 | No pin literal begins inside another |
| Pins.RewritingMovesOneMore | tools/catalog.py:237-247 | A text replacement after others is the simultaneous substitution extended by one pin, if no move landed on that pin |
| Pins.MovingKeepsOthers | tools/catalog.py:237-247 | A pin that is not moved is still in the text |
| Pins.MovingAddsNone | tools/catalog.py:237-247 | No pin appears that was neither there nor moved to |
| Catalog.Plan | tools/catalog.py:259-274 | The moves planned are those of groups wholly selected whose newest snapshot differs |
| Catalog.FirstClash | tools/catalog.py:276-287 | Refuses exactly if some move lands on a snapshot in use or on another move's |
| Catalog.ClashesExactlyIf | tools/catalog.py:276-287 | A move clashes exactly if it lands on a snapshot another repository is on, or that another move lands on |
| Catalog.Rewrite | tools/catalog.py:237-292 | Sequential replacements equal the simultaneous substitution, or name a pin that is not in the text |
| Catalog.Advance | tools/catalog.py:250-292 | Refused exactly on a clash and then nothing is written; otherwise the text is the substitution of all moves |
| Catalog.AdvancingKeepsTheGroups | tools/catalog.py:250-292 | Unrefused, two repositories share a pin afterwards exactly if they did before |
| Catalog.OnlyWholeGroupsMove | tools/catalog.py:250-292 | A repository moves only if its whole group is selected |
| Catalog.GroupMovesExactlyIf | tools/catalog.py:259-274 | A snapshot is left exactly if every repository on it is selected and there is a newer one for them, which is where they go |
| Catalog.MovingAlongAChainMixesGroups | tools/catalog.py:276-292 | Without the refusal, moving a to b and b to c would leave both at c |
| GeneratedBlock.SplitGeneratedBlock | bin/tine.py:224-248 | Separates the project's lines from the generated ones, or refuses unpaired markers |
| GeneratedBlock.MergeGeneratedBlock | bin/tine.py:617-621 | Writes the new block above the project's own lines |
| GeneratedBlock.MergedSplits | bin/tine.py:617-621 | Splitting a merged file gives back the project's lines after one blank, and the block |
| GeneratedBlock.LinesReadBack | bin/tine.py:175-187 | Lines written to a file read back as the lines |
| GeneratedBlock.StripTakesSpace | bin/tine.py:235-262 | Exactly the white space around a line goes |
| GeneratedBlock.SpacesAre | bin/tine.py:235-262 | White space is the twenty-nine characters that Unicode and ASCII separators make it |
| Buckconfig.LogicalLines | bin/tine.py:251-268 | Joins continued lines and drops comments and blanks, one logical line at a time |
| Buckconfig.CommentsSayNothing | bin/tine.py:251-268 | Lines that begin with a hash or a semicolon say nothing, nor does what continues them, nor blanks |
| Buckconfig.EntriesAreKept | bin/tine.py:251-268 | Any other line is an entry as it is, joined where its backslash was with what continues it |
| Buckconfig.ParseLines | bin/tine.py:293-310 | Fills sections and entries line by line, later values replacing earlier ones in place |
| Buckconfig.IncludesAreFollowed | bin/tine.py:303-306 | An include, optional or not, goes on with the file named, from the section at hand to wherever that ends |
| Buckconfig.OtherLinesSayNothing | bin/tine.py:303-310 | Other angle brackets, and lines without an equals sign, say nothing |
| Rendering.Render | bin/tine.py:1440-1448 | Writes the header and each non-empty section |
| Rendering.RenderedReadsBackExactlyIf | bin/tine.py:1440-1448 | Reading, splitting and parsing a rendered configuration gives back its non-empty sections, in order, exactly if its unnamed section comes first |
| Rendering.ConfigParses | bin/tine.py:293-310 | Parsing the lines of sections with new names appends exactly those that hold entries |
| Rendering.EntryParses | bin/tine.py:115-121 | An accepted key and value parse back from their line |
| Rendering.MarkerParses | bin/tine.py:169-172 | An accepted section name parses back from its marker |
| Values.ReadsBackExactlyIf | bin/tine.py:115-121 | A value followed by another entry is read back exactly if the validator accepts it |
| Values.SwallowsTheNext | bin/tine.py:115-121 | A value refused for its backslash would swallow the entry after it |
| Values.ListReadsBack | bin/tine.py:1708-1709 | A list joined by commas reads back as the list |
| Values.IgnoresReadBack | bin/tine.py:585-614 | An ignore list written over continuation lines is one entry that reads back as the list |
| Values.BlockReadsBack | bin/tine.py:585-614 | The logical lines of the whole generated block parse to its sections |
| RefreshedBlock.BlockHasNoMarkersExactlyIf | bin/tine.py:585-614 | The rendered block holds no marker exactly if the last of several ignores reads as none |
| RefreshedBlock.RefreshingExactlyIf | bin/tine.py:617-621 | A file written with a rendered block is read back exactly under that condition; then refreshing it again changes nothing and never what the project's own lines parse from |
| RefreshedBlock.MarkerNamedIgnoreIsRefused | bin/tine.py:224-248 | An ignored path named like the end marker, after another, makes the written file refused |
| RefreshedBlock.MergedReadsAsBlockThenOwn | bin/tine.py:617-621 | The merged file, read as Buck reads it, is the sections of the block and then whatever the project's own lines add |
| Values.EscapedPathsAreListable | bin/tine.py:1685-1687 | Escaping a path for a glob keeps it writable in the list |
| Values.UnnamedAfterAnotherIsLost | bin/tine.py:1440-1448 | Entries without a section, rendered after one, are read back as that section's |

## Left out

- Modes, modification times and copied metadata of overlay entries; the mount itself, namespaces and seccomp.
- `capture`'s widening of directory modes (rootfs/rootfs.py:168-172), and `deletions`.
- Deltas that `capture` did not produce: the reconstruction theorems are about captured histories.
- HTTP, S3 signing, gRPC, timeouts, the bucket's cooldown, counters and logs; a bucket is a keyed map that only the operation at hand changes during one call, a key that cannot be read stays so during it, and each operation reads the clock once.
- Locks: `Store`, `Local` and `ActionCache` are sequential; interleavings are in `StoreInterleavings` (locked sections) and `Protocol` (requests).
- X.509 chains, certificate windows and Ed25519: a key lookup and a verification relation stand for them; a reader never fails to look a key up.
- `_kept`'s miss when a certificate cannot be fetched (remote_cache/shim.py:385-393).
- The store's schema version, its lock file, certificates kept in it, and `check_blob`'s messages.
- Shim.Local.Ensure: where several bundles are wanted and there is not room for all they bring, only soundness is promised, because admitting one may evict what another brought.
- Shim.Local.RefillAll: the same; `only` and `digests`, like `source` in the methods that call it, are ghost parameters.
- Roots.Entries: what is found at a root below symlinked directories is a parameter, because an absolute link leads out of the tree, to the host.
- Store.Store.PutBlobs: takes blobs with one size per hash, because the upsert does not correct a row's size.
- EndToEnd.BuildThenRead: assumes that a bundle already under the name, unless tainted, is the bundle, which `Protocol.EveryRunIsSound` proves of every run of publishers, and that hash-named blobs both sides can read are the same bytes.
- The remaining messages (GetActionResult, Read and Write responses, Empty), which are single fields of modelled ones.
- Blobs of 2^64 bytes and more, archive fields of 2^32 and more, and cpio headers with signed or spaced hex.
- `_extract`'s files and hard links on disk, and path sanitising; `pack_tree`'s walk.
- Globs and module patterns, libkmod itself: lookup, dependencies and modinfo are given as an index.
- Firmware names with compression suffixes and their search order.
- JSON records of a manifest, file digests and `check_name`; the rest of an object is one opaque text.
- zstd itself: the decompressed disk is given. Upload, checksums and registration of an image.
- `newest` is any function on a group; printing, locking files, checkouts and date parsing of the catalog are not modelled.
- Buckconfig includes are an abstract function; the defaults and cells that `render_project_buckconfig` fills in before printing, settings validation messages, and the collection of ignores through Git.
- `render_local_config_block`'s comment in place of version components that cannot be derived.
- Catalog.Advance: takes attribute names without quotes and snapshots without quotes or spaces, which every pin has.
