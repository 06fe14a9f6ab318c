# A verified model of cas-kit

cas-kit is a content-addressed blob store on a local file system. A blob is
addressed by its BLAKE3 digest and lives either in a loose file
`objects/<2 hex>/<62 hex>` or in a pack: a `.pack` file of Zstandard frames with
an `.idx` file of digests and offsets. `repack` moves loose blobs into a pack,
and a mark-sweep collector removes what the host does not list as live.

This project models the default build (with the `zstd` feature) of that store
and proves what it is for: the collector loses reclamation and never live data,
wherever it stops; the store behaves as a map from digests to bytes; the two
file formats round-trip; reads return what their address promises. Where the
code falls short of what its documentation says, the model follows the code, and
the exact condition under which the documented property holds is proved.

Check it with `dafny verify dfyconfig.toml`.

## How the store is modelled

- The file tree is `Files = map<Path, Bytes>`. A `Path` is a loose blob, an alias
  (a file under `objects/` that listing reports under a digest whose reads do not
  look there), a `.pack` or `.idx` with a stem, the trash mirror of a path, or a
  file elsewhere. `LooseNames` ties listing such a tree to listing file names.
  Every `fs::write`, `remove_file` and `rename` is one `Step`. The class `Disk`
  holds the tree and changes it in place, one step at a time, and records the
  steps, and the removals that were refused, in ghost logs. A crash point is a
  prefix of the steps; a torn write leaves a prefix of the data (a truncated file
  is the empty prefix).
- What a sweep, a repack or a read computes is given by specification functions
  of the tree (`PlanOf`, `SweepOutcome`, `RepackSteps`, `GetNext`, ...). The
  imperative methods, with the loops and the order of effects of the source, are
  proved to compute exactly these, and sweeps and repacks to log their effects in
  exactly this order; the theorems are about these.
- BLAKE3 and Zstandard are the functions of a `Codec`. `Lawful` says what is
  assumed of Zstandard: frames start with the magic of RFC 8878 section 3.1.1,
  inflate to what was compressed, and data up to 1 GiB compresses to at most
  2 GiB. `FramingLawful` shows that this can be met with any hash.
- No hash is assumed to be injective. `Contents` is a choice of one byte string
  per digest and `InPlay` says that a string is the chosen one for its digest:
  the theorems hold for every choice, so for every collision-free set of strings.
- Three conditions on a tree that a caller can check before a sweep appear in the
  theorems: `PlanFails` (a digest that is not live is listed under an alias only,
  so its size cannot be asked for), `Shadowed` (a live digest is listed under an
  alias only and held by packs with garbage only), and `NamesFree` (no orphan
  carries the name of a planned replacement). `Harmless` combines them.
- `WellFormed` is the truthful tree: each loose file decodes to the content of its
  name, each pack whose index loads is named after that index, and every digest
  in it reads as its content. `AllIndexed` says that every index with a pack
  loads. `ReadsAs` is what a store with empty caches reads, whichever pack the
  iteration order of its hash map makes it consult.
- A run of the store is a sequence of states related by `Next`; the methods of
  `BlobStore` are proved to be such steps. `External` is an arbitrary change of
  the files by somebody else.
- `Damaged` relates a tree to one with the same names and indexes and anything in
  the other files. A damaged tree is studied through the sound one behind it: the
  sweeps of the two have the same effects, up to the first replacement that does
  not read. `HasCopy` says that the content is somewhere, `ReadsAs` that a read
  finds it for sure.
- A run with crashes (`CrashRuns`) also has events in which a call stops after some
  of its effects, the last of which may be a torn write, and the store is opened
  again with empty caches.
- Directory listings come in an arbitrary order; the methods choose one
  nondeterministically and sort, as the source does.

## Where the code and its documentation part

| documented | in the code | proved |
|---|---|---|
| A crash in phase 1 is harmless and re-running converges (`src/gc.rs:61-65`) | A crash between the two writes of a new pack leaves a `.pack` that the re-run lists as an orphan, writes again under the same name, and then deletes together with the pack it replaces | `RerunSafeExactly`: the re-run is safe if and only if the crash left no new `.pack` without `.idx`; `RerunCanLose`: a concrete tree |
| A sweep never loses live data (`src/gc.rs:58-60`) | True unless an orphan carries the name of a replacement pack, or an alias makes a live digest count as covered although no read finds it (then its last pack is removed, with rewriting on or off) | `CrashSafeExactly`: safe at every crash point if and only if neither is the case (or nothing is changed at all); `SweepCanLoseAliased`: a concrete tree |
| A later sweep finishes the job (`src/gc.rs:78-81`) | Its plan fails once the loose file behind an alias of a swept digest is gone | `PlanFailsAgainExactly`; `SecondPlanFails`: a concrete tree |
| A live object that is also loose survives the removal of its pack (`src/gc.rs:42-49`) | A loose file counts as a copy whatever it holds: after a `put_blob` that crashed inside its write, or damage, a sweep removes packs that hold the good copy | `SweepAfterTornPut`: the good copy survives if and only if a pack without garbage (or one that is spared) holds it; `TornPutCanLose`: a concrete tree |
| The objects of a pack without garbage survive no matter what (`src/gc.rs:40-41`) | Such a pack counts as a copy whatever its records hold; if they are torn or damaged, a sweep removes other packs that hold the good copies | `DamagedCopyExactly`: a copy survives if and only if a good one is loose, or in a pack without garbage, or to be copied (or spared); `DamagedLiveReads`: what read before still reads; `CrashesCanLose`: a concrete run |
| A torn replacement fails reads "transiently" with `HashMismatch` (`src/gc.rs:65-71`) | A complete pack under the replacement's name covers its objects, so it is never rewritten, and a torn `.pack` changes no read; but a torn `.idx` makes every packed read of a fresh store fail until the sweep is run again | `ReplacementIsFresh`, `TornReadsExactly`, `TornIndexHeals` |
| Packs whose index does not load are never touched (`src/gc.rs:297-299`, `REQUIREMENTS.md:17`) | They are overwritten when they bear a replacement's name | `UnreadablePackTouchedExactly`; `UnreadablePackCanBeTouched`: a concrete tree |
| `bytes_reclaimed` is what left `objects/` (`src/gc.rs:324-327`) | The old pair of a rewritten pack is counted in phase 1 and again in phase 4 | `BytesExactWithoutRewrites`, `BytesWithRewrites`; `CounterExceedsDrop`: a concrete tree |
| The pack cache is invalidated after a sweep (`src/gc.rs:493`) | Not when the sweep fails part-way | `FailedSweepGoesStale`: the cache stays right if and only if the plan fails or the first replacement does not read; `FailedSweepCanGoStale`: a concrete store |
| `get_blob` returns what was put | Not if the ring cache or a loose file already there has something else for the digest (no put looks into it or repairs it), nor above 1 GiB when compressing, nor when a plain store is given data with the Zstandard magic | `PutThenGet`: exactly then, for every state; `PutsNeverRepair`, `PlainStoreInflatesFrames` |
| With verification on, reads are verified (`src/store.rs:251-255`) | What was read while it was off stays in the ring cache and is served unhashed | `VerifiedReadUnsoundExactly`: exactly on such an entry; `UnsoundOrigin`: there is no other origin; `RepackCanLose`: a concrete run |
| Repacking loses no data (`src/store.rs:514-516`) | It packs what the ring cache answers, which need not be what the file holds; a plain store's blob above 1 GiB is moved into a pack that no read can return it from; and a blob that reads because it is loose stops reading with its loose file when some other index does not load, as after a repack that crashed inside its index write, or when another pack that lists it does not read it | `RepackReadsExactly`: a blob that was loose still reads if and only if its file stays, or the repack read its content, it is at most 1 GiB, every other index loads, and every other pack that lists it reads it; `RepackSafeExactly`; `RepackLoses`, `AfterTornIndex`, `AfterTornPack`; `RepackCanLose`, `CrashesCanLose`: concrete runs |
| Names that are no valid address are skipped (`src/store.rs:386-388`) | Uppercase digits, a plus sign, or another split of the 64 digits are listed as well | `ListingInvertsAddressing` |
| Distinct seeds give distinct buffers (`benches/dedup.rs:51-53`) | True from 8 bytes on; below, two seeds always share a buffer | `DistinctBuffersExactly`, `ShortBuffersCollide` |

## Model

| member | source | states |
|---|---|---|
| GcSafety.CrashSafe | src/gc.rs:494-588 | Whatever prefix of a sweep's effects has happened, in any mode, rewriting or not, on any truthful tree and for any live set, if no live object is shadowed by an alias and no orphan has a replacement's name: the tree is truthful, every live object present before is present, none has appeared, and all indexes still load |
| GcSafety.TornSafe | src/gc.rs:521-540 | The same when the crash leaves only part of the file it was writing; all indexes still load if that file is a pack |
| GcSafety.LiveReadsUnchanged | src/gc.rs:58-60 | Whatever a store with empty caches read for a live digest before the sweep, it reads byte for byte at every crash point |
| GcOutcome.CrashSafeExactly | src/gc.rs:425-570 | For all options, no crash point loses a live object if and only if the sweep is a dry run, or its plan fails, or no live object is shadowed (rewriting off: without a spared pack that holds it) and, rewriting on, no orphan has a replacement's name |
| GcOutcome.CollisionLoses | src/gc.rs:549-570 | An orphan under a replacement's name makes a complete sweep lose a live object that was present |
| GcOutcome.ShadowLoses | src/gc.rs:425-453 | A live object that is listed under an alias only, and held by packs with garbage only, is lost by a complete sweep |
| GcWitness.SweepCanLoseAliased | src/store.rs:405-410 | In a concrete truthful store with one alias and no orphan, every sweep that is no dry run deletes the live object |
| GcRerun.RerunSafeExactly | src/gc.rs:61-65 | After a crash at any point, whole or torn, of a sweep of a truthful tree in which no live object is shadowed and no orphan has a replacement's name, one more rewriting sweep keeps every live object if and only if the crash left no new `.pack` without its `.idx`; then exactly the live objects remain if its plan does not fail, and it does not if every alias names a live digest |
| GcRerun.BarePackLoses | src/gc.rs:359-362 | After a crash between the two files of a replacement, the next complete sweep loses a live object |
| GcRerun.BareReplan | src/gc.rs:346-484 | After such a crash in replacement `i`, the new plan rewrites exactly the replacements from `i` on, and the bare pack is an orphan under the name of the first of them |
| GcReplan.DecideAfterSome | src/gc.rs:441-464 | Once the objects of the first `i` replacements are covered, the coverage loop decides on exactly the other replacements |
| GcReplan.ReplanAfter | src/gc.rs:346-484 | A tree with the same loose blobs and partial packs in which the first `i` replacements count as packs without garbage has exactly the other replacements in its plan |
| GcRerun.TornReadsExactly | src/pack.rs:226-227 | A crash that tears a write, all indexes having loaded before: if the file is a pack every read of every digest is as before; if it is an index, exactly the loose blobs still read |
| GcRerun.TornIndexHeals | src/gc.rs:65-71 | After a torn index, one more complete sweep makes every live object readable as its content |
| GcRerun.TornPackIsTouched | src/gc.rs:297-299 | The pack whose index a crash has torn does not load and is overwritten by the next sweep |
| GcWitness.UnreadablePackCanBeTouched | src/gc.rs:297-299 | In a concrete store a sweep stopped inside its first index write leaves such a pack |
| GcWitness.RerunCanLose | src/pack.rs:226-227 | In a concrete truthful store without orphans, a sweep stopped after its first write and run again deletes the live object |
| GcConverge.Converges | src/gc.rs:58-81 | Any finite series of sweeps against one live set, in any modes, each stopped anywhere but between the files of a new pack, then one more rewriting sweep, keeps exactly the live objects present at the start and, unless the plan of that last sweep fails, nothing else; it does not fail if every alias names a live digest |
| GcConverge.AttemptKeeps | src/gc.rs:494-588 | Each such attempt leaves a truthful tree with the same live objects and aliases, in which again nothing is shadowed and no orphan has a replacement's name; nothing is asked of the start that a caller cannot check before the first sweep |
| GcConverge.EvictedOrphans | src/gc.rs:554-570 | Crashes in phases 2 to 4 orphan only files of packs that held garbage |
| GcConverge.StoppedReplans | src/gc.rs:346-484 | Wherever a sweep stops, whole or torn, the next plan rewrites only packs that this one was to rewrite, with the same `keep` lists |
| GcConverge.StaysNamesFree | src/pack.rs:219-221 | If no new pack is left bare, no orphan a crash leaves has the name of a replacement in the next plan |
| GcRewrite.ReplacementIsFresh | src/gc.rs:532-534 | A planned replacement never has the name of a pack readers use: such a pack would hold only live objects and already cover them |
| GcRewrite.NewNamesDiffer | src/gc.rs:524-539 | Replacements with disjoint objects get different names |
| GcRewrite.RewriteAll | src/gc.rs:520-540 | On a truthful tree phase 1 does not fail, performs one pack write and one index write per replacement, leaves every readable pack and loose file as it was, and adds complete packs that hold exactly what each keeps |
| GcRewrite.PhaseOneSafe | src/gc.rs:520-540 | After any number of finished writes of phase 1 all that was readable still is, from the same files |
| GcRewrite.PhaseOneTornSafe | src/pack.rs:226-227 | The same with the next write torn, and all indexes still load if that is a pack |
| GcEvict.EvictPrefix | src/gc.rs:542-570 | After any number of effects of phases 2 to 4 only planned victims can be gone and nothing outside the trash has changed or appeared |
| GcEvict.EvictAll | src/gc.rs:629-656 | When they are done, the victims are gone, every other file is as it was, and in trash mode each victim that existed is in the trash byte for byte and other trash is untouched |
| GcEvict.VictimsExact | src/gc.rs:542-570 | The victims are exactly the loose blobs that are not live, the orphans, and both files of the packs to be removed |
| GcSafety.SurvivorSpared | src/gc.rs:558-570 | Packs without garbage, replacements, and with rewriting off the packs that would have been rewritten, are never victims |
| GcSafety.LiveHasSurvivor | src/gc.rs:452-463 | Every live object that is not loose is in such a pack once phase 1 is done, with rewriting on or off |
| GcOutcome.SweepLeaves | src/gc.rs:494-588 | A complete sweep leaves exactly the live objects that were present, and with rewriting off also what the partial packs it spares hold |
| GcOutcome.AfterPack | src/gc.rs:554-570 | Every readable pack after a complete sweep is a replacement with its objects, a pack that had no garbage, or (rewriting off) a spared partial pack |
| GcOutcome.AfterLoose | src/gc.rs:542-547 | A loose file is there after a complete sweep if and only if it was there and is live |
| GcOutcome.UnreadablePackTouchedExactly | src/gc.rs:297-299 | A pack whose index does not load comes through a sweep untouched if and only if no replacement bears its name |
| GcOutcome.SweepLoadsExactly | src/gc.rs:297-299 | After a complete sweep all indexes load if and only if those that did not bore the names of replacements |
| Damage.DamagedPlan | src/gc.rs:346-484 | A plan looks at names and indexes only: trees that differ in what packs and loose files hold have plans that differ in byte counts at most |
| Damage.DamagedSteps | src/gc.rs:520-570 | The sweep of a damaged tree has the effects of the sweep of the sound one, to its end or up to the first replacement that does not read, and then it has deleted nothing |
| Damage.DamagedLiveReads | src/gc.rs:58-60 | In a tree with any damage to packs and loose files, whatever a fresh store reads for a live digest it reads wherever the sweep stops, even inside the write of a pack |
| DamagedCopies.DamagedCopyExactly | src/gc.rs:425-463 | A live digest with a good copy has one after a complete sweep of a damaged tree if and only if a good copy is loose, or in a pack without garbage, or the digest is to be copied (rewriting off: is good in a spared pack) |
| DamagedCopies.DamagedCopyKept | src/gc.rs:425-463 | And then it has one wherever the sweep stops, whole or torn, or fails |
| DamagedCopies.ReadableStays | src/gc.rs:425-463 | Without aliases every live digest that reads has such a copy |
| GcPlanning.CoverageExact | src/gc.rs:425-464 | The `keep` lists are non-empty, sorted and pairwise disjoint, and their union is exactly the live objects of partial packs that are neither listed nor in a pack without garbage |
| GcReport.KeptFromFirst | src/gc.rs:441-464 | An object that several packs with garbage hold is copied from the first of them in the order of file names, never from a later one |
| GcReport.PlanInOrder | src/gc.rs:346-484 | Every list of a plan is strictly in order: digests by their bytes, packs and orphans by their file names, where order means that the first place where two differ decides |
| GcPlanning.DecideSound | src/gc.rs:441-464 | Whatever the order of the packs, only packs with garbage are removed or rewritten, and each `keep` is a non-empty sorted part of the live uncovered objects of its pack |
| GcPlanning.DecideCovers | src/gc.rs:441-464 | Every live object of a pack with garbage was covered or is kept by some replacement |
| GcPlanning.DecideDisjoint | src/gc.rs:456-458 | No object is kept by two replacements |
| GcPlanning.DecideComplete | src/gc.rs:441-464 | Every pack with garbage is removed or rewritten, and exactly once |
| GcPlanning.PlanFacts | src/gc.rs:346-484 | The same in terms of the file tree |
| GcFixpoint.SweepIsFixpoint | src/gc.rs:346-588 | Planning again after a complete sweep finds no loose garbage, no removals and no orphans; with rewriting on also no garbage and no rewrites, with rewriting off exactly the same rewrites |
| GcFixpoint.PlanFailsAgainExactly | src/gc.rs:418-421 | After a complete sweep the next plan fails if and only if some alias names a digest that is not live |
| GcWitness.SecondPlanFails | src/gc.rs:418-421 | In a concrete tree of one loose blob and an alias of it, a sweep succeeds and the plan of the next one fails |
| GcReplan.DecideWithoutRemoved | src/gc.rs:441-464 | Taking the packs to be removed out of the inventory changes no other decision |
| GcFixpoint.AfterNoOrphans | src/gc.rs:549-570 | A complete sweep leaves no orphan |
| GcTrash.TrashEqualsDelete | src/gc.rs:629-656 | Trash and delete mode leave the same files outside the trash, even when names collide, and neither changes a file outside `objects/` and `trash/` |
| GcTrash.TrashIsReversible | src/gc.rs:103-110 | Renaming every swept file back restores the tree that followed phase 1; with fresh replacement names that is every original file byte for byte plus the replacement packs |
| GcTrash.VictimsDistinct | src/gc.rs:542-570 | No file is swept twice, so no two share a trash destination |
| GcBytes.BytesExactWithoutRewrites | src/gc.rs:543-567 | With no rewrite carried out, `bytes_reclaimed` is the drop in bytes under `objects/`, and is `bytes_reclaimable` plus the orphan sizes |
| GcBytes.BytesWithRewrites | src/gc.rs:535-567 | With rewriting on the counter exceeds the drop by the larger of the old and new pair, summed over the rewrites, less the bytes the replacements overwrite; so it is exact if and only if these sums agree and, when no file has a replacement's name, if and only if nothing is rewritten |
| GcWitness.CounterExceedsDrop | src/gc.rs:533-540 | In a concrete store a rewriting sweep counts more bytes than leave `objects/` |
| GcBytes.EvictTotal | src/gc.rs:629-656 | Evicting distinct files, in either mode, takes exactly their sizes off the bytes under `objects/` |
| GcRun.MarkLive | src/gc.rs:192-213 | The live set is the roots that are listed or in the pack cache's view, and the missing roots are the others, sorted |
| GcRun.PlanSweep | src/gc.rs:346-484 | The imperative listing, inventory, orphan scan and coverage loop compute the plan of the theorems and the counts of present, live and garbage objects from the tree, whatever the listing order, whatever the pack cache holds, aliases included; the call fails exactly when a swept digest has an alias and no loose file |
| GcReport.CensusOfMap | src/gc.rs:395-414 | In a good state the counts of a plan are those of the map: its digests, the live ones among them, and the others |
| GcReport.CensusAdds | src/gc.rs:466-473 | In any tree every scanned object is counted either as live or as garbage |
| GcReport.SweepTakesGarbage | src/gc.rs:494-588 | A complete rewriting sweep takes exactly as many digests off the map as its plan counts as garbage |
| GcReport.PlanBytesExactly | src/gc.rs:418-421 | The byte counts of a plan are the bytes the tree loses with the loose files of digests that are not live, and with the packs to be removed as well |
| GcReport.RemovedCounts | src/gc.rs:541-588 | The report's count of loose files is the number that are gone after a complete sweep; its count of packs is the number of packs with garbage, or with rewriting off of those that are gone |
| GcReport.RewrittenCount | src/gc.rs:519-540 | Its count of rewritten packs is the number of packs that have come to be readable |
| GcReport.AfterPaired | src/gc.rs:549-570 | After a complete sweep every pack file has its index and every index its pack |
| GcOrder.IndexGoesFirst | src/gc.rs:554-570 | From a tree in which every index has its pack, no point at which a sweep may stop, whole or torn, has an index whose pack is gone |
| GcOrder.PhasesInOrder | src/gc.rs:518-570 | When any file is gone all replacements are written; when a file of a pack is gone all loose garbage is, and when a file of a removed pack is gone all orphans are |
| GcRun.DecidePacks | src/gc.rs:425-464 | The two passes with a growing `covered` set make the decisions of the coverage rule |
| GcRun.AllOrphans | src/gc.rs:358-398 | Both scans together list every orphan once, sorted |
| GcRun.RemoveOrTrash | src/gc.rs:629-656 | Performs the effects of one eviction and returns the size that left `objects/` |
| GcRun.WriteReplacements | src/gc.rs:523-540 | Phase 1 with its early return: the effects, success and booked bytes of the rewrite phase |
| GcRun.RemovePacks | src/gc.rs:562-570 | Phase 4 deletes each index before its pack if they are there, and adds up their sizes |
| GcRun.SweepStore | src/gc.rs:494-588 | The whole sweep performs exactly the logged effects the crash theorems speak of, reports the plan and the counters, and drops the pack cache unless it fails or is a dry run |
| PackTheorems.PackRoundTrip | src/pack.rs:179-299 | For any objects with distinct digests, `create`, `load` and `read_blob` return an object's data if and only if the data hashes to the digest, is at most 1 GiB, and its position survives the 32-bit count |
| PackTheorems.PackableRoundTrip | src/pack.rs:179-299 | For correctly addressed objects within the bounds, the loaded index lists exactly their digests and every object reads back |
| PackTheorems.RecordsAt | src/pack.rs:196-217 | Each record lies in the concatenated buffer where the records before it end |
| PackTheorems.EntriesOfAt | src/pack.rs:196-217 | The offset recorded for an object is the length of the buffer before its record |
| PackTheorems.IndexRoundTrip | src/pack.rs:103-141 | Loading a serialized index, whatever follows it in the file, gives its entries in digest order, cut to the truncated count |
| PackTheorems.TornIndexRejected | src/pack.rs:126-136 | Every strict prefix of a serialized index fails to load |
| PackTheorems.LoadedIndexSorted | src/pack.rs:126-140 | For any file that loads, the entries are a sorted permutation of the stored ones |
| PackTheorems.ForeignIndexRefused | src/pack.rs:107-117 | An index with foreign magic or another version is refused with what was found |
| PackTheorems.RecordReadsAs | src/pack.rs:203-214 | A record reads back as its type, the lengths of data and frame modulo 2^32, the digest, and the frame |
| PackTheorems.PackHeaderReadsAs | src/pack.rs:191-194 | Packs and indexes begin with their magic, version 1, and the number of objects modulo 2^32 |
| PackTheorems.OnlyBlobsRead | src/pack.rs:264-266 | The byte at the stored offset must be 1: any other is refused as an unexpected type, whatever follows it |
| PackTheorems.FindExact | src/pack.rs:145-150 | On a loaded index lookup succeeds exactly on the stored digests, with one of their stored offsets |
| PackFiles.SerializeIndex | src/pack.rs:232-244 | Growing the buffer entry by entry yields the index format |
| PackFiles.LoadIndex | src/pack.rs:103-141 | The cursor-advancing parser accepts, rejects and reports errors as the format says |
| PackFiles.ReadFromPack | src/pack.rs:247-299 | Seeking and reading field by field gives the record's data or the error of the first step that fails |
| PackFiles.FillBuffer | src/pack.rs:189-217 | The loop of `create` builds the pack format and the offsets of its records |
| PackFiles.Create | src/pack.rs:179-230 | Nothing is written for no objects; otherwise exactly two writes, pack before index, under the name derived from the index |
| PackFiles.LoadAll | src/pack.rs:337-350 | Succeeds exactly when every index with a pack loads, and then holds exactly the indexed packs with their parsed indexes |
| PackFiles.FindPack | src/pack.rs:355-362 | Finds some pack of the cache with the digest if there is one |
| PackFiles.AllHashes | src/pack.rs:366-374 | Lists the digests of the cached packs strictly increasing, each once |
| Codecs.DecodeInvertsEncode | src/store.rs:269-282 | Decoding what a put encoded gives the data back if and only if it is storable: at most 1 GiB when compressing, not misread as a frame when plain |
| Codecs.DecodeFailsExactly | src/compressor.rs:55-79 | A file with the magic is refused exactly when it is no frame or one of more than 1 GiB, with an error that says which; any other file is read as it is |
| Codecs.FramingLawful | src/compressor.rs:32-79 | The laws assumed of the compressor can be met together with any hash |
| StoreRefinement.RunRefines | src/store.rs:168-542 | Over every admissible run of completed calls the store refines two maps, of the loose and of the packed blobs: every call answers and changes them as it should, reads of mapped digests return the exact bytes, other reads fail or return cached bytes with that digest, and the pack cache is empty or what is on disk |
| StoreRefinement.NextRefines | src/store.rs:168-542 | Each call on the two maps, its answer included: puts are refused exactly for what is loose (`put_blob_new`) or has another hash, deletions take what is loose, a repack above the threshold answers with the number of loose blobs and packs them all, and else answers 0 and does nothing |
| StoreRuns.TidyRunRefines | src/store.rs:168-542 | The same with no condition on names, for a store that starts without orphans, which no completed call creates |
| StoreRuns.NextTidy | src/gc.rs:494-588 | No completed put, get, delete, repack or sweep leaves an orphan |
| StoreRefinement.HasRefines | src/store.rs:315-321 | In a good state `has_blob` answers whether the digest is in the map, and changes no file |
| StoreRefinement.MarkRefines | src/gc.rs:192-213 | In a good state `mark` gives the roots that are in the map, and as missing exactly the others, sorted |
| StoreRuns.MarkThenSweep | src/gc.rs:192-213 | Marking some roots and sweeping against the result, rewriting, leaves exactly the roots that were in the map, each with its bytes |
| StoreRuns.MarkedUnreadableExactly | src/gc.rs:193-201 | On a truthful tree, whether all indexes load or not, `mark` reports a root as live that no fresh store can read if and only if it has no loose file, an alias lists it or the pack cache holds it, and no pack holds it or some index on disk does not load |
| StoreRefinement.RepackKeeps | src/store.rs:517-542 | In a good state a repack succeeds and leaves exactly the same digests present, all readable; its count is the number of loose blobs if that is above the threshold, and then all of them are packed; else it is 0 and nothing changes |
| RepackReads.GetsLoose | src/store.rs:523-527 | In a tree whose loose files are good the reads of a repack never fail, and return for each blob what the ring cache of that moment answers, else the content of its file |
| RepackReads.RoomyReads | src/store.rs:256-313 | If the ring cache has room for all of them, each read returns what the cache held before the first one, or the content |
| RepackReads.RepackCanRun | src/store.rs:517-542 | From every store with good loose files and no aliases, above the threshold, a repack can run to its end with any set of denied deletions, so the theorems about its runs speak of some |
| RepackCrash.RepackRunEffects | src/store.rs:517-542 | What the method does to a tree without aliases whose loose files are good, whatever its packs hold, if the ring cache is right about the loose blobs: it succeeds, and its log gains nothing, or the pack of the true contents, its index, and then the deletions that are not denied, in this order |
| RepackCrash.RepackReadsUnchanged | src/store.rs:529-536 | After every prefix of the effects of a repack run, whichever deletions fail and whether or not the pack's name was taken, a store with empty caches reads for every digest, loose or packed, exactly what it read before, if no stray index has that name |
| RepackCrash.RepackCrashSafe | src/store.rs:529-536 | After every prefix of them every blob that was loose reads the same even with such a stray index |
| RepackCrash.TornPackReads | src/pack.rs:226 | A pack file torn in any way, even over a readable pack of the same name, changes no read of any digest |
| RepackCrash.TornIndexReads | src/pack.rs:227 | After a torn index write exactly the loose blobs still read |
| RepackCrash.SweepAfterRepackCrash | src/store.rs:517-542 | In a tree without orphans and aliases, after a repack run that crashes after any effect, or inside the write of its pack, new or over an older one of its name, or of its index: whatever a fresh store then reads for a live digest, it reads wherever a sweep of that tree stops; and where the crash left a truthful tree, every sweep of it is safe |
| PackTheorems.TornPackNeverLies | src/pack.rs:247-299 | A pack that lost its end reads each blob as the whole pack does, or fails |
| RepackLoss.RepackReadsExactly | src/store.rs:514-542 | In a tree without aliases whose loose files are good, whatever its packs and indexes hold: after a repack call that packed something, with any ring cache and whichever deletions fail, a blob that was loose reads from a fresh store if and only if its file is still there, or the repack read its content, it is at most 1 GiB, every index but the new one loads, and every other readable pack that lists it reads it |
| RepackLoss.RepackKeepsPacked | src/store.rs:514-542 | And whatever read from packs alone reads on, if no pack has the new name with another index |
| RepackLoss.RepackLoadsExactly | src/store.rs:529-539 | Afterwards all indexes load if and only if all but the new one loaded before |
| RepackLoss.OthersLoadPlanned | src/gc.rs:297-299 | This is what a caller sees in the plan of a dry run: it lists no unreadable pack of another name |
| RepackLoss.KeepsReadsExactly | src/store.rs:514-542 | Everything that read before the call reads after it if and only if each blob whose loose file it deletes meets these conditions |
| RepackLoss.RepackSafeExactly | src/store.rs:514-542 | The same if the ring cache is right about the loose blobs: nothing is lost if and only if every deleted one is at most 1 GiB, every other index loads, and every other pack that lists one reads it |
| RepackLoss.RoomyRepackSafeExactly | src/store.rs:514-542 | The same for a ring cache, right or wrong, with room for the loose blobs: it must have held nothing or the content for each deleted one before the call |
| RepackLoss.RepackLoses | src/store.rs:524-536 | A blob whose loose file is deleted is read by no fresh store any more if some other index does not load, or another pack lists it and does not read it, or the ring cache answered with bytes of another hash |
| RepackAgain.AfterTornIndex | src/store.rs:514-542 | If a repack crashes inside its index write, one more blob is put, and a repack completes, then every loose blob reads before it and none whose file it deleted after it |
| RepackAgain.AfterTornPack | src/store.rs:514-542 | If a repack crashes while it writes an older pack of its name again, one more blob is put, and a repack completes, then a deleted blob of the torn pack reads if and only if its record there is whole |
| RepackAgain.TornIndexHealed | src/store.rs:514-542 | A torn index heals if the same blobs are repacked: the store then reads exactly what it read before the crash |
| RepackLoss.RingTruthfulRun | src/store.rs:256-313 | Any run from a fresh store that never switches verification off, whatever others do to the files, ends with a ring cache that is right about everything, if what was read is in play |
| RepackWitness.RepackCanLose | src/store.rs:517-542 | A concrete run from a fresh store (damage, a read with verification off, delete and put again, verification on) after which a verified read returns wrong bytes and a repack loses the blob, every call answering Ok |
| CrashRuns.CopiesLast | src/store.rs:168-542 | Over any run of puts, reads, deletions, repacks and sweeps, each of which may stop after any effect, whole or torn, and be followed by a reopening, a blob with a good copy keeps one, if it is not deleted, is live in every sweep, and each sweep finds a good copy where it leaves one |
| CrashRuns.CopyReadsExactly | src/store.rs:256-299 | In every state of such a run a blob with a copy reads if and only if nothing is in the way: no damaged loose file of it, and, if it is not loose, no index that does not load and no pack that lists it and does not read it |
| CrashRuns.GoodIsRepairable | src/store.rs:88-101 | Such runs may start from every good store, in particular a new one |
| CrashWitness.CrashesCanLose | src/store.rs:517-542 | A concrete run of two puts, two crashed repacks, a repack and a sweep for which the blob is live, all completed calls answering Ok, after which no good copy of it is left |
| StoreRefinement.PackedFacts | src/store.rs:529-530 | Writing the pack, over an existing one of the same name or not, keeps the tree truthful and adds no digest, and the pack holds every loose blob |
| StoreRefinement.GetKeeps | src/store.rs:256-299 | Reading in a good state returns the content of every present digest and changes no file |
| StoreRefinement.PutKeeps | src/store.rs:168-194 | Writing a storable blob adds exactly its digest with its bytes to the loose blobs |
| StoreRefinement.DeleteKeeps | src/store.rs:326-335 | Deleting a loose blob takes it off the loose blobs, and leaves the packed ones |
| StoreAnswers.RepackCounts | src/store.rs:517-542 | In any state a repack that succeeds answers with the number of files that listing reports if that is above the threshold, and has then written a pack; at or below the threshold it answers 0, reads nothing and changes nothing |
| StoreAnswers.RepackFailsAsRead | src/store.rs:524-527 | A repack that fails does so with the error of a read of a listed digest, and changes no file |
| StoreAnswers.PutNewExactly | src/store.rs:197-220 | In any state `put_blob_new` answers Ok if and only if there is no file at the address of the digest, and else that the blob exists, changing nothing |
| StoreAnswers.PutNewTwice | src/store.rs:201-203 | Of two such puts of the same data in a run, with only calls between them that spare the file, the second is refused |
| StoreAnswers.PutWithHashExactly | src/store.rs:225-249 | Data under a wrong digest is refused if and only if there is no file at the address |
| StoreAnswers.DeleteExactly | src/store.rs:326-335 | A deletion answers that there is no blob if and only if there is no loose file; the loose file is gone afterwards, and nothing else |
| StoreAnswers.NotFoundExactly | src/store.rs:286-293 | In any state a read answers "not found" if and only if the ring cache has no entry, there is no loose file, and the pack cache it uses can be had and lists the digest nowhere; so no damage passes for absence |
| StoreAnswers.LooseReadExactly | src/store.rs:268-284 | A loose file that the ring cache does not answer for reads as what it decodes to; an error of the decoder is passed on, and under verification a wrong hash is reported |
| StoreAnswers.MismatchMeans | src/store.rs:279-281 | A hash mismatch names the digest asked for and the different one that the decoded loose file has, and is reported under verification only |
| StoreAnswers.ReadsAsExactly | src/store.rs:256-299 | The reads of the theorems about trees are those of `get_blob`: `ReadsAs` holds if and only if every answer that a store just opened on the tree can give is these bytes |
| StoreAnswers.HasExactly | src/store.rs:493-503 | In any state `has_blob` of a digest that is not loose is true if and only if the pack cache it uses can be had and lists it; with no cache held, if and only if all indexes load and a pack lists it |
| StoreAnswers.MarkFailsExactly | src/gc.rs:193-194 | `mark` fails if and only if no pack cache is held and some index does not load |
| StoreAnswers.HeldCacheStays | src/store.rs:443-467 | A pack cache that is held stays, right or wrong, over every call but an invalidation, a repack or a sweep |
| StoreAnswers.LookupHoldsCache | src/store.rs:443-467 | A lookup in the packs, successful or not, holds the cache it has used, and none if it could not be loaded |
| StoreAnswers.StaleLookup | src/store.rs:482-491 | A lookup through it reloads the index, so it returns bytes of a pack that now lists the digest or fails with an error of the pack |
| StoreAnswers.InvalidatedReadsFresh | src/store.rs:469-480 | After invalidation a lookup answers as a store just opened does |
| StoreIntegrity.ReadsHashToAddress | src/store.rs:256-313 | Over any run interleaved with arbitrary changes of the files, with verification never switched off, every successful read returns bytes that hash to the address |
| StoreIntegrity.RunSound | src/store.rs:256-313 | The invariant behind it: everything in the ring cache is addressed by its own hash |
| StoreIntegrity.VerifiedReadUnsoundExactly | src/store.rs:251-266 | With verification on, a successful read returns bytes of another hash if and only if the ring cache has such an entry for the digest |
| StoreIntegrity.UnsoundOrigin | src/store.rs:256-313 | Whenever a call of a run answers with bytes of another hash, some call of the run read the same bytes while verification was off |
| RingCache.CacheIsMostRecent | src/store.rs:256-313 | After any run the ring cache is, in order, the first 1024 digests of the reversed history of successful reads, with the bytes last returned |
| RingCache.RecentExact | src/store.rs:262-266 | That list is ordered by last read, and holds each digest of the history exactly with its last result |
| RingCache.RecentDistinct | src/store.rs:262-266 | It holds no digest twice |
| RingCache.HitKeepsRing | src/store.rs:262-266 | Removing an entry and putting it in front is what the ideal cache does |
| RingCache.MissKeepsRing | src/store.rs:302-313 | Popping the last entry of a full cache and inserting in front is what the ideal cache does |
| StoreLimits.PutThenGet | src/store.rs:168-299 | In every state, a blob that is put and then read comes back as it was put if and only if the ring cache entry for its digest, if there is one, is the data; else the loose file already there, if there is one, decodes to it; else the data is storable |
| StoreLimits.PutsNeverRepair | src/store.rs:173-175 | A loose file that does not decode to the data keeps its bytes over any run of calls that does not delete it, in which every put of the data answers Ok and no read returns the data |
| TornPut.TornPutReads | src/store.rs:183-191 | After a put that crashed inside its write every other digest reads as before, and its own as what the half file decodes to, although a pack may hold it |
| TornPut.TwinSweep | src/gc.rs:346-570 | What the loose file of a live blob holds makes no difference to a sweep: trees that differ in it only get the same effects in the same order, and keep the file as it is |
| TornPut.SweepAfterTornPut | src/gc.rs:425-453 | After a torn put of a live blob that is packed, and a complete sweep with any options, deleting the torn file gives the blob back if and only if a pack without garbage holds it, or rewriting is off and a spared pack does; before the sweep it always did |
| TornPut.TornPutCanLose | src/gc.rs:425-453 | In a concrete store every sweep after such a put removes the only good copy |
| StoreLimits.PlainStoreInflatesFrames | src/store.rs:272-276 | A plain store given a Zstandard frame answers with what it inflates to, or with a hash mismatch under verification |
| StoreLimits.RepackBuriesOversized | src/store.rs:523-536 | A blob above 1 GiB that a plain store reads is not read by any store opened after a repack has deleted its loose file |
| SweepFailure.FailedSweepGoesStale | src/gc.rs:523-573 | After a failed sweep, on a tree that may be damaged, a pack cache that was what is on disk still is if and only if the plan failed or the first planned replacement does not read |
| SweepFailure.FirstPairStays | src/gc.rs:523-540 | However far phase 1 gets on a damaged tree, a first replacement that reads is readable afterwards and lists what it keeps |
| FailWitness.FailedSweepCanGoStale | src/gc.rs:523-573 | In a concrete store with a damaged second pack the sweep fails after one replacement and keeps a stale cache |
| Store.BlobStore.constructor | src/store.rs:88-101 | A new store has empty caches and verifies reads |
| Store.BlobStore.PutBlob | src/store.rs:168-194 | One write of the encoded data if the blob is not loose yet, and nothing otherwise |
| Store.BlobStore.PutBlobNew | src/store.rs:197-220 | As above, with an error if the blob is loose already |
| Store.BlobStore.PutBlobWithHash | src/store.rs:225-249 | An existing file wins before the digest is checked; a mismatch writes nothing |
| Store.BlobStore.GetBlob | src/store.rs:256-299 | Ring cache, then loose file, then packs, with the decoding, verification and cache updates of the transition relation |
| Store.BlobStore.CacheBlob | src/store.rs:302-313 | Bounded insertion at the front |
| Store.BlobStore.HasBlob | src/store.rs:319-321 | True for a loose file, else exactly what the pack cache says, which is loaded if none is held, and false when the indexes do not load |
| Store.BlobStore.DeleteBlob | src/store.rs:326-335 | Removes the loose file only, and reports a missing one |
| Store.BlobStore.WithPackCache | src/store.rs:443-467 | Loads the indexes only when none are held, and holds none when one does not load |
| Store.BlobStore.GetBlobPacked | src/store.rs:482-491 | Reads through any pack whose cached index has the digest, reloading that index, with each way this can fail |
| Store.BlobStore.RepackLoose | src/store.rs:517-542 | Reads every listed digest through the ring cache, loose files and packs, stops at the first failure, and else adds to the log, in order, the pack, its index, and those deletions that are not denied and find a file (a digest may be listed twice, or have none); a loose file that is still there was tried and refused; then drops the pack cache |
| Disks.Disk.ListBlobs | src/store.rs:389-417 | In the order of their bytes (the first place where two digests differ decides), each digest as often as loose files and aliases name it, whatever order the directory is read in |
| Disks.UnaliasedListing | src/store.rs:389-417 | Without aliases that is each loose blob exactly once |
| Disks.Disk.ListPacks | src/pack.rs:303-318 | The stems of the pack files strictly in the order of the bytes of their file names |
| LooseNames.ListingOfNames | src/store.rs:389-417 | What listing makes of the file names of a tree is a listing of the tree's paths, aliases included |
| Layout.ListingInvertsAddressing | src/store.rs:389-417 | The listing is exactly the sorted set of digests whose path exists if and only if every file whose name parses is named by two and 62 lowercase digits |
| Layout.AliasExactly | src/hash.rs:49-66 | A file whose name parses is reported under a digest it is not the path of if and only if its name is not two and 62 lowercase digits |
| Layout.AliasesExist | src/hash.rs:58-61 | Uppercase digits, a plus sign and another split of the digits each make such a file |
| Layout.LowercaseIsNoAlias | src/store.rs:545-554 | A file named by 2 and 62 lowercase digits is never an alias |
| Layout.BlobPathInjective | src/store.rs:545-554 | Different digests have different paths |
| Layout.ListBlobs | src/store.rs:389-417 | The listing is in the order of bytes and reports each digest as often as files name it |
| Bytes.LessExactly | src/hash.rs:35 | The order is the lexicographic one: the smaller byte at the first difference, or the proper prefix, comes first |
| Sorting.SortedInOrder | src/store.rs:415 | Sorted lists are exactly those in this order |
| Hex.HexRoundTrip | src/hash.rs:49-78 | Parsing a printed digest gives it back |
| Hex.HexOrder | src/hash.rs:70-78 | Printed digests are in the order of the digests, so paths are |
| Hex.CaseIgnored | src/hash.rs:49-66 | A text and its lowercase form parse alike, or both fail |
| Hex.PlusIsZero | src/hash.rs:58-61 | A plus sign for a high digit counts as a zero |
| Hex.ParseErrors | src/hash.rs:49-66 | The length is looked at first and reported; a text of the right length fails exactly if some pair of digits does |
| Hex.HexPrintsBack | src/hash.rs:49-78 | Printing a parsed text gives the text back if and only if it is lowercase |
| Hex.LowercaseParses | src/hash.rs:49-66 | Every 64-digit lowercase text parses |
| Hex.BucketMatchesPrefix | src/hash.rs:92-94 | The first byte is what the first two digits say, before and after a round trip |
| Hex.ToHex | src/hash.rs:70-78 | The loop over the bytes prints two digits each |
| Hex.FromHex | src/hash.rs:49-66 | Filling the array chunk by chunk parses the text or reports the first kind of error |
| Words.XorShiftInvertible | benches/dedup.rs:60-62 | A xor-shift by a third of a word or more is undone by two more shifts |
| Words.XorShiftOnto | benches/dedup.rs:60-62 | And reaches every word |
| Words.Multiply1Invertible | benches/dedup.rs:60 | Multiplication by the first odd constant has an inverse modulo 2^64 from either side |
| Words.Multiply2Invertible | benches/dedup.rs:61 | So has multiplication by the second |
| Corpus.MixInjective | benches/dedup.rs:57-62 | The splitmix64 mixer is injective on 64-bit words |
| Corpus.MixOnto | benches/dedup.rs:51-62 | And onto, so bijective |
| Corpus.WordsDiffer | benches/dedup.rs:54-62 | Distinct seeds give distinct words at every place of the stream |
| Corpus.ChunkDiffers | benches/dedup.rs:51-68 | Buffers of distinct seeds differ in every full 8-byte word |
| Corpus.DistinctBuffersExactly | benches/dedup.rs:51-53 | Distinct seeds always give distinct buffers if and only if the size is at least 8 |
| Corpus.ShortBuffersCollide | benches/dedup.rs:51-53 | For every smaller size there are two seeds with the same buffer |
| Corpus.GenData | benches/dedup.rs:54-68 | The chunk loop with a rolling state writes exactly the words, least significant byte first |
| Corpus.Invert | benches/dedup.rs:86 | Exclusive or with 255 gives the complement of a byte |
| Corpus.BuildCorpus | benches/dedup.rs:73-94 | The loop builds bases, one-byte mutants and copies at their places |
| Corpus.ChunkIsWord | benches/dedup.rs:54-68 | Every full chunk of a buffer is a word of the stream, least significant byte first |
| Corpus.NearDuplicates | benches/dedup.rs:70-90 | Files 500 to 699 differ from an earlier base in exactly one byte, which is complemented |
| Corpus.ExactDuplicates | benches/dedup.rs:70-94 | Files 700 to 999 are copies of earlier files |
| Corpus.BasesAndMutantsDiffer | benches/dedup.rs:73-94 | With three words or more per file, the 700 bases and mutants are pairwise distinct |
| Corpus.CorpusHasBaseCountFiles | benches/dedup.rs:97-106 | The corpus has exactly 700 distinct files, and as many digests if the hash does not collide on them |

## Left out

- BLAKE3 and Zstandard internals, compression levels, and compression errors: foreign code, represented by `Codec`.
- Builds without the `zstd` feature.
- Concurrency: calls are sequential; racing writers and readers with stale indexes are documented by the source as outside its guarantees.
- Mutex poisoning, the tokio wrappers, temporary directories, and the cache of known directories.
- Directories: creating them, and directories or special files where a file is expected.
- Real I/O errors, except a failing deletion in `repack`, a missing file, and the possibility that a process stops after any step.
- Overflow of the 64-bit byte counters, of lengths and of addresses: these are unbounded in the model; the 32-bit casts of counts and lengths in the formats are modelled, and so is the 64-bit cast of offsets.
- The remaining counters of the plan, `loose_present`, `packed_present`, `packs_with_garbage` and `packed_garbage_objects`, the report's `trash` path, and `LiveSet`'s `roots` and `scanned`: no decision depends on them.
- `blob_count`, `total_size`, `len`, `pack_count`, `object_count`, accessors, error texts, the command line, the other benchmarks and the example: nothing else in the store depends on them.
- Disks.Disk.ListPacks: speaks of packs whose file names are UTF-8; the source does not list others, so such a pack and its index count as files the store neither lists nor reads (an index alone is an orphan under any name).
- A pack file with an empty stem (named `.pack`), for which the standard library sees no extension to replace.
- PackFormat.Find: on an index with a digest stored twice, which of its offsets the library's binary search lands on is fixed by one particular search; the theorem only uses that it is one of them.
- GcSafety.TornSafe: promises that indexes load, and with them reads, only when the torn file is a pack; a torn index does break packed reads (`TornReadsExactly`).
- GcRerun.TornIndexHeals: gives readability after one torn index write; for a series with several, `Converges` gives what is present and truthful, not that every index loads.
- RepackCrash.RepackReadsUnchanged: speaks, like the refinement of the store and `RepackReadsExactly`, of trees without aliases; no call of the store creates one, and `RepackRun` says what a repack does with them.
- RepackLoss.RepackReadsExactly: asks that the new pack is shorter than 2^64 bytes, that wrong bytes in the ring cache compress to less than 2^32 (the format cannot say how long a longer frame is), and that loose files are good: with a damaged one a repack that verifies fails, unless the ring cache answers for it.
- Damage.DamagedLiveReads: speaks of damage to packs and loose files; an index that is damaged and still loads is another index under a wrong name.
- CrashRuns.CopiesLast: asks that no index waits without its pack under the name of a repack's pack, that no orphan has a replacement's name (`RerunCanLose` is what happens otherwise), and that data put are at most 1 GiB and storable; verification stays on, and others do not change the files.
- TornPut.TornPutReads: whether a truncated frame decodes to anything is left to the decoder; a torn plain file that is no frame never reads as the data.
- GcConverge.Converges: asks that at the start no live object is shadowed and no orphan has a replacement's name; `CrashSafeExactly` says what a sweep does otherwise.
- StoreRefinement.RunRefines: asks for fewer than 2^32 loose blobs at a repack and for data of at most 1 GiB; `PackRoundTrip` and `RepackSafeExactly` say what happens beyond.
