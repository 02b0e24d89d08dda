# Caravault: a verified model

Caravault keeps several removable drives consistent without a network. Each drive carries a manifest (for
every path its digest, size, modification time, version vector and tombstone), and a sync round detects
conflicts, resolves them, plans operations and carries them out. This project models that pipeline, the
crash-safe write below it, the scan that feeds it, and the two libraries beside it (the tree diff and the
content-defined chunker), and proves what they promise or, where they do not keep a promise, exactly when
they do.

## How it is laid out

| file | what it holds |
|---|---|
| `Base.dfy` | options, results, 64-bit integers, the byte-wise string order in which the ordered containers iterate |
| `VersionVectors.dfy`, `VersionVectorJson.dfy`, `JsonText.dfy`, `JsonGrammar.dfy` | the vector object, its order and merge; its printer and parser (a subset of the objects of section 4 of RFC 8259, with only the escapes for quote and backslash of section 7); the printed text; exactly which texts the parser accepts |
| `SyncOps.dfy` | operations, ancestor directories |
| `Drives.dfy` | a drive: disk, manifest, operation log, and the history of all states it has been in |
| `ConflictResolver.dfy`, `Settling.dfy`, `Obedience.dfy` | detection, the five strategies, what a sync settles with them, and whether the planner follows them |
| `RenameDetection.dfy`, `PlanRules.dfy`, `SyncPlanner.dfy`, `Directories.dfy`, `PlanOrder.dfy`, `PlanProperties.dfy`, `PlanShape.dfy`, `Burial.dfy` | the planner: renames, per-path decisions, emission with its directories, Kahn's sort with its queue and its guard, coalescing and what it drops |
| `Decisions.dfy` | what resolver, rename detection and planner decide, said of the versions alone |
| `CrashSafety.dfy`, `Executor.dfy`, `Outcomes.dfy` | the write protocol, recovery, whole runs; every operation on the drives, under every fault; what each leaves, path by path |
| `Convergence.dfy`, `PlanMeaning.dfy`, `Quiescence.dfy` | one round, what sorting and coalescing make of it, many rounds |
| `RenameRounds.dfy`, `RenameConvergence.dfy`, `CrossedNames.dfy` | one rename, rounds with renames, and two small fleets |
| `FileTree.dfy`, `TreeSteps.dfy`, `TreeRounds.dfy`, `RenameTrees.dfy` | a file system with directories, what stands in an operation's way there and what it leaves; the same rounds on it, without and with renames |
| `Pipeline.dfy`, `RepeatedSync.dfy`, `ManualResolution.dfy` | the `sync` command, once and again and again; the `resolve` command |
| `Merkle.dfy`, `ReportOrder.dfy`, `TreeHash.dfy`, `Scan.dfy`, `ScanTrees.dfy`, `ScanProperties.dfy`, `ScannedDiff.dfy` | the tree diff and the order of its reports, directory hashes, the cached scan and the tombstone pass, entry by entry; the diff of two scans |
| `LostEdits.dfy`, `EditRounds.dfy` | how an edit is recorded, and what a sync makes of it |
| `Rabin.dfy`, `Chunker.dfy`, `Delta.dfy` | the fingerprint, the chunker, rebuilding a file from a delta |

Code that changes objects step by step is a class or a method with loops (`Drive`, `VersionVector`, the
planner's loops, Kahn's algorithm, the executor, the scan); each method is proved equal to a function of its
inputs or of the old state, or to a property that determines the result, and the properties are proved of
those functions. What each basic function computes is stated a second time in terms of nothing but paths, drives,
clocks and bytes (`Decisions`, `Outcomes`, `PlanShape`, `TreeSteps`, `ScanTrees`, `ReportOrder`, `JsonText`, and
lemmas such as `SyncOps.AncestorsExactly`). A drive's `history` holds every state between two steps, so "a crash anywhere" is "any
prefix of the history".

Digests are a function `h` passed to whatever uses it. Where a result needs that two contents are not
confused, it says so of the contents at hand (`OnlyPreimage`, `CollisionFree`, `Unmistakable`); where it
needs that no digest is the empty string, it says that too (a SHA-256 hex digest never is, FIPS 180-4).

## Main results

- **One round** (`Convergence`, `PlanMeaning`, `TreeRounds`): if every disk matches its manifest and nothing was
  renamed, the state after a round in which every operation gets through depends only on the state before and the
  resolutions, whatever the order of the operations, and in it every path is on all drives with the same bytes or on
  none. Sorting and coalescing keep what the plan does if and only if no operation is *buried*: its path is no
  directory above a path that is to be copied to the same drive. On a file tree a copy is *blocked* where a file
  stands above its path or a directory has its name. A plan does there what it does on flat disks without the copies
  that are blocked at the start; exactly these fail; and the drives come to agree if and only if there are none of
  them and no buried operation moves bytes. `Pipeline.Sync` proves it of the whole command on the drive objects.
- **Rounds with renames** (`RenameConvergence`, `RenameTrees`): a rename *fits* if without it the old name would go
  from all drives, and the new one would get the renamed contents. Where no live path is a directory above another
  and every rename fits, a sync makes the drives agree. It does so only then if old and new names go in pairs on each
  drive and either some name is both an old and a new one (and then the drives never agree) or no old name is renamed
  on the drive that is its source. On a file tree a rename onto a directory is blocked, and what must then hold of its
  two names is exact too.
- **Many rounds** (`Quiescence`, `RepeatedSync`): after a first sync that makes the drives agree, the files do
  not change any more; each later operation replaces bytes by equal bytes under a strictly later vector; the
  work of all later rounds is exactly the lag that has gone, and no drive is worked on twice for a path. From a
  sync on that the lag bounds, every plan is empty and nothing changes for ever. All this on file trees; a first sync
  without renames makes the drives agree under the condition above.
- **Crashes and faults** (`CrashSafety`, `Executor`, `Pipeline`): a write that is cut off anywhere and recovered
  ends in one of three outcomes, and there is a fourth if and only if the target's old entry names a beginning of
  the new contents that the target does not hold; recovery may itself be cut off. What every operation leaves
  under every fault, on disk, in the manifest and in the log, is an exact function of the fleet and the fault;
  during a whole sync no tracked path ever holds anything but complete bytes that were on some drive or named by
  some manifest at the start.
- **Ordering** (`PlanOrder`, `PlanProperties`): Kahn's sort outputs a permutation even when its guard fires, the
  guard fires exactly on cyclic inputs, and its first-in-first-out queue determines the output. Where no live
  path is a directory above another, the planner's own graph has no cycle, renames included. A sync's plan is
  determined by the manifests and the order of their rows.
- **Files in directories** (`FileTree`): a file tree stays one under every operation. Where no live path is a
  directory above another, a plan does on it exactly what it does on flat disks without the operations that are
  blocked at the start, with or without renames; where no live path is a directory on any drive either, nothing is
  blocked.
- **Edits** (`EditRounds`): when all drives hold the edited contents after a sync, exactly, on flat disks and on file
  trees; with renames too, where no live path is a directory above another.
- **Scan and diff** (`Scan`, `ScanProperties`, `Merkle`): the cached scan returns the tree of a full rehash
  exactly if every cache hit is truthful; live paths are the tree's leaves; a second scan is idle; the pruned
  diff equals the flat one exactly where equal hashes meant equal files and nothing changed its kind; for two
  scans, if and only if no directory hides a change behind the same hashes of its entries.
- **Chunks** (`Rabin`, `Chunker`, `Delta`): the table step equals eight bit steps; chunk boundaries depend on
  nothing but the bytes since the last one, and where they are is determined by a divisibility test; chunks tile the
  file within their size bounds; the old file and
  the changed chunks give back the new file.

## Findings

Places where the code does less than a reader may expect. Each is a lemma or follows from one.

- A file that has become a directory on one drive keeps another drive from ever agreeing: the removal of the
  file and the directory share a drive and a path, and coalescing drops the removal (`PlanMeaning.BecameDirDiverges`;
  on a file tree the fleet does not change at all, sync after sync: `FileTree.BecameDirIsStuck`).
- A directory that has become a file does so too, though nothing is in conflict, renamed or buried: removing what was
  in the directory leaves the directory, and the file cannot be moved onto it, in this sync or any later one
  (`TreeRounds.DirBecameFileIsStuck`, `RepeatedSync.NeverComesToRest`). Exactly when a sync without renames makes the
  drives agree, for this and the case before: `TreeRounds.TreeConverges`; what coalescing drops:
  `PlanMeaning.PlanKeepsMeaning`, `PlanMeaning.DroppedForDirectory`.
- The planner may not follow the resolver, with one conflict or several. A resolution carries no path, so the
  winner of another path may be taken (`Obedience.PlannerMayDisobey`), even over a version that supersedes all
  others (`Obedience.NewestIsOverridden`); a winner counts only if some version is concurrent with its own, so a
  deletion that wins may be undone (`Obedience.DeletionIsOverridden`). Exactly when: `Obedience.FollowsOwnResolution`.
- A quorum of tombstones comes before any resolution: it removes the newest version where that is live
  (`Obedience.NewestIsRemoved`, exactly when: `Obedience.QuorumOverrides`), and installs the join of the
  tombstones only, so a live drive's clock may go back (exactly when: `PlanRules.QuorumRegress`).
- Where the resolver says to keep all versions, the planner replaces every one that differs from the source it
  picks (`Obedience.CopyAllIsNotKept`).
- Two drives that renamed one file in opposite directions trade names and stay apart, under every plan
  (`CrossedNames.CrossedStaysApart`). Any drives stay apart where a name is new on one and old on another, old and new
  names go in pairs, and no live path is a directory above another (`RenameConvergence.ChainedKeepsApart`). Exactly
  when a sync with renames makes the drives agree, this input included: `RenameConvergence.RenameRoundExactly`.
- A rename onto a name that is still a directory on the other drive fails, and nothing else is planned for the file:
  the fleet stays as it is (`RenameTrees.RenamedOntoDirIsStuck`; exactly when: `RenameTrees.RenameTreeExactly`).
- A manifest that cannot be written leaves a removal or a rename half done: the file is gone under a live entry,
  or moved with no entry under the new name, and the log row stays open (exactly when: `Executor.OpenAfter`).
  Recovery closes the row and repairs nothing (`Executor.RecoveryDoesNotRepair`).
- `resolve` rewrites manifests only. The drives that hold other bytes keep them, no later sync repairs it,
  and their manifests are then wrong (`ManualResolution.HandResolvedMovesNothing`). The new vector supersedes
  the others unless the winner's clock is the largest 64-bit value and wraps
  (`ManualResolution.HandVectorAdvances`).
- A mount point whose name starts with a dot is skipped as hidden, and the tombstone pass then deletes every
  live entry (`ScanProperties.HiddenRootLosesAll`). An unreadable file without a cache hit is tombstoned too
  (`ScanProperties.LiveIsLeaf`).
- A scan takes the recorded digest where size and modification time are as recorded, so an edit that keeps both is
  missed for good (`ScanProperties.EntriesScanned`).
- A scan that finds changed contents records them under the old vector (`ScanProperties.ScannedVector`). An edit
  is therefore no conflict. If nothing was renamed, the next sync gives all drives the edited contents if and only if
  the edited drive is the first in id order that has the path and no operation that would carry them is buried, or, on
  a file tree, a blocked copy; a drive that is not the first has its edit overwritten by the old bytes, unless its own
  operation is buried (`EditRounds.EditIsKept`, `EditRounds.EditIsKeptOnTree`). Renames can override an edit too: the
  edited drive comes first, and every plan leaves the old bytes on a drive where the file is still to be renamed to
  that path (`EditRounds.RenameOverridesEdit`; exactly when: `EditRounds.EditSurvivesExactly`,
  `EditRounds.EditSurvivesOnTree`).
- A directory's hash stands for the multiset of its entries' hashes (`TreeHash.HashIsOfEntries`), so files that
  trade contents go unnoticed (`TreeHash.TradedContentsAreMissed`); a path that is a file on one side and a
  directory on the other is not reported itself (`Merkle.KindChangeIsMissed`).
- `from_json` accepts a missing comma (`JsonGrammar.CommaMayBeMissing`), an object left open after a comma
  (`JsonGrammar.MayStayOpen`) and anything at all behind the closing brace, refuses white space after a comma
  (`JsonGrammar.NoSpaceAfterComma`), and reads numbers modulo 2^64 (`VersionVectorJson.ParseDigitString`). Exactly
  what it accepts, and as what: `JsonGrammar.AcceptedExactly`.
- `recover_incomplete_operations`, `MerkleEngine::diff` and the chunker are called by no command.

## Model

| member | source | states |
|---|---|---|
| VersionVectors.VersionVector.Increment | src/version_vector.cpp:14-16 | the drive's clock becomes one more modulo 2^64, a missing one counting as zero, and every other clock stays what it is |
| VersionVectors.VersionVector.Merge | src/version_vector.cpp:18-27 | the loop over the other object's clocks computes the pointwise maximum: the drives of both, no clock below either side's, each clock one of theirs |
| VersionVectors.VersionVector.Compare | src/version_vector.cpp:29-55 | the flag loop decides which vector is ahead of which, in all four cases |
| VersionVectors.OrderDecidesLeq | src/version_vector.cpp:29-55 | each of the four answers is given exactly when the pointwise order says so |
| VersionVectors.JoinIsLeastUpperBound | src/version_vector.cpp:18-27 | a merge is above both vectors and below everything that is |
| VersionVectors.JoinSemilattice | src/version_vector.cpp:18-27 | merging is idempotent, commutative, associative, with the empty vector as unit, on the stored maps themselves |
| VersionVectors.BumpAdvances | src/version_vector.cpp:14-16 | an increment dominates the old vector exactly if the clock does not wrap, and falls behind it exactly if it does |
| VersionVectors.BumpedClocks | src/version_vector.cpp:14-16 | an increment adds one to its clock modulo 2^64, adds no other drive and changes no other clock |
| VersionVectors.LeqMeans | src/version_vector.cpp:29-60 | one vector is known to another exactly if each of its clocks that is not zero is there and no greater |
| VersionVectorJson.ToJson | src/version_vector.cpp:66-84 | the printing loop yields the text that the round trip is about, keys in string order |
| VersionVectorJson.FromJson | src/version_vector.cpp:86-146 | the cursor loops end on every string and agree with the recursive parser, errors included |
| VersionVectorJson.RoundTrip | src/version_vector.cpp:66-146 | parsing what was printed gives the same vector back, for every key text and every 64-bit clock |
| JsonText.PrintedIs | src/version_vector.cpp:66-84 | the printed text, character by character: braces, one entry for each key in ascending order, a comma between any two and no white space; in an entry the key in quotes with a backslash before each quote and backslash, a colon, and the decimal numeral without leading zeros |
| JsonText.CharactersAre | src/version_vector.cpp:93-132 | white space is exactly six characters, digits ten, and a digit string counts in tens |
| JsonText.TwoEntriesRead | src/version_vector.cpp:86-146 | two entries with a comma between them, white space around their colons and behind their digits, are read as their clocks modulo 2^64, the later one of one key counting |
| JsonText.OtherwiseRefused | src/version_vector.cpp:89-104 | a text that does not begin with a brace is refused, and so is one that goes on with anything but white space, a quote, the closing brace or the end |
| VersionVectorJson.PrintedClockNeverWraps | src/version_vector.cpp:130-132 | on a printed clock no turn of the digit loop overflows 64 bits |
| VersionVectorJson.ParseDigitString | src/version_vector.cpp:130-132 | every digit string is read modulo 2^64, so truly exactly when it is below that |
| JsonGrammar.AcceptedExactly | src/version_vector.cpp:86-146 | a text is accepted, as these clocks, if and only if it is written as the grammar says: entries with white space around colons and behind digits, commas optional between entries, none but an entry or the end behind one |
| JsonGrammar.CommaMayBeMissing | src/version_vector.cpp:136-142 | two entries without a comma between them are both read |
| JsonGrammar.MayStayOpen | src/version_vector.cpp:99-142 | a text that ends after a comma is accepted |
| JsonGrammar.NoSpaceAfterComma | src/version_vector.cpp:99-104 | white space after a comma is an error, whatever stands around it |
| SyncOps.CollectAncestorDirs | src/sync_planner.cpp:18-23 | the loop collects exactly the non-empty beginnings of the path before a slash, from the longest to the shortest |
| SyncOps.AncestorsAreAbove | src/sync_planner.cpp:18-23 | every collected directory is a proper path prefix ending before a slash |
| SyncOps.AncestorsExactly | src/sync_planner.cpp:13-23 | a directory is collected if and only if it is a non-empty beginning of the path before a slash |
| SyncOps.AncestorsChain | src/sync_planner.cpp:18-23 | the ancestors of an ancestor are ancestors |
| Drives.Drive.UpsertFile | src/manifest_store.cpp:186-224 | exactly one entry is set, and nothing else on the drive, as one step of the history |
| Drives.Drive.DeleteFile | src/manifest_store.cpp:302-316 | exactly one entry goes, and nothing else |
| Drives.Drive.MarkDeleted | src/manifest_store.cpp:283-300 | the entry becomes a tombstone with the drive's clock one up modulo 2^64 and is otherwise kept; a missing one becomes a minimal tombstone with the present time |
| Drives.Drive.BeginOperation | src/manifest_store.cpp:361-382 | a new uncompleted row, its id returned |
| Drives.Drive.CompleteOperation | src/manifest_store.cpp:384-398 | exactly that row becomes completed |
| Drives.Drive.GetIncompleteOperations | src/manifest_store.cpp:400-425 | the ids of exactly the uncompleted rows, ascending |
| ConflictResolver.DetectConflicts | src/conflict_resolver.cpp:9-50 | a path is reported, once and in path order, if and only if two of its versions are concurrent or a live one supersedes a tombstone |
| ConflictResolver.HasConflict | src/conflict_resolver.cpp:24-43 | the nested loops with early exit find a clashing pair exactly if there is one |
| ConflictResolver.Resolve | src/conflict_resolver.cpp:52-115 | the winner and the strategy are the ones the five rules in their order call for |
| ConflictResolver.MajorityIsUnique | src/conflict_resolver.cpp:73-91 | with at least as many drives as versions, two digests cannot both have a majority |
| ConflictResolver.ResolutionIsDetermined | src/conflict_resolver.cpp:52-115 | the rules leave no choice: two resolutions of the same versions are equal |
| Decisions.ConflictMeans | src/conflict_resolver.cpp:24-43 | versions are in conflict if and only if one of two is unknown to the other, and the other is unknown to it or a deletion that it, live, supersedes |
| Decisions.ResolutionMeans | src/conflict_resolver.cpp:52-115 | when each strategy is taken and which drive it names, said of sets of drives: the first version that knows of all; the first holder of the least digest that is live on more than half of the drives; the first deletion; the latest modification, the first drive among equals |
| Settling.SettledBy | src/main.cpp:448-466 | a sync settles each contested path once, in path order, on its versions on all drives, and a majority is one of all drives |
| Obedience.FollowsOwnResolution | src/sync_planner.cpp:301-345 | the planner's source is the winner of the path's own resolution if and only if: the winner dominates or equals all versions and no resolution is usable for the path, or some version is concurrent with the winner's and the first usable resolution names it |
| Obedience.QuorumOverrides | src/sync_planner.cpp:259-293 | a quorum of tombstones goes against the resolution if and only if the winner is live, and then the winner knows of all versions and is removed |
| Obedience.CopyAllIsNotKept | src/sync_planner.cpp:301-395 | where all versions are to be kept, every live version with another digest than the source's is replaced |
| Obedience.DeletionIsOverridden | src/sync_planner.cpp:301-345 | one conflict in which the resolver lets a deletion win and the planner restores the file |
| Obedience.NewestIsOverridden | src/sync_planner.cpp:301-345 | a version that supersedes all others is overridden by the winner for another path |
| Obedience.NewestIsRemoved | src/sync_planner.cpp:259-293 | the newest version, live, is removed by a quorum it knows of |
| Obedience.PlannerMayDisobey | src/sync_planner.cpp:301-325 | two conflicts where the resolver chooses one drive and the planner takes the other |
| RenameDetection.DetectRenames | src/sync_planner.cpp:27-85 | for every drive and old name, the new name that the last caller in id order calls for, and of that caller's names the last that its store returns; nothing else |
| RenameDetection.DetectedIsCalled | src/sync_planner.cpp:27-85 | every detected rename is one that some drive calls for, and every path that a drive calls to be renamed is detected |
| RenameDetection.DetectionIsDetermined | src/sync_planner.cpp:27-85 | manifests and row order decide what is detected |
| Decisions.DetectedMeans | src/sync_planner.cpp:48-82 | a rename is detected if and only if some drive has deleted the old name and has the new one, with the contents that the target still has under the old name and not under the new; the last such drive decides, by the last such row |
| PlanRules.NoRegress | src/sync_planner.cpp:347-395 | outside the quorum every operation installs the least vector that knows of all versions of the path |
| PlanRules.QuorumIsMajority | src/sync_planner.cpp:259-275 | the quorum branch is taken exactly if a strict majority of the drives holds a tombstone |
| PlanRules.QuorumRegress | src/sync_planner.cpp:263-293 | a removal by quorum keeps a live drive's clocks if and only if each is matched by some tombstone |
| PlanRules.DominanceAgrees | src/sync_planner.cpp:327-342 | when a version knows of all others, the resolver's scan and the planner's one-pass fold pick the same drive, the first in id order |
| Decisions.DominantMeans | src/sync_planner.cpp:327-342 | without a resolution the source is where a climb through the drives ends: from the first that knows the path, again and again to the next whose version supersedes the one it came from |
| Decisions.ResolvedMeans | src/sync_planner.cpp:301-325 | a resolution decides on every path for which its winner holds a version concurrent with another; of several the first does |
| Decisions.OpForMeans | src/sync_planner.cpp:256-396 | which operation is planned for a drive and a path, exactly when: removal, copy or replacement, and from which source, first deletion included |
| PlanRules.SourceExists | src/sync_planner.cpp:296-345 | a path has a source exactly if some drive knows it |
| SyncPlanner.EmitRenames | src/sync_planner.cpp:216-254 | the rename loops emit exactly the renames, each directly after the directories it needs that no earlier one needed, and mark both names as handled |
| SyncPlanner.EmitRow | src/sync_planner.cpp:256-396 | the loop over the target drives emits for each unhandled one exactly the operation its situation calls for, a copy directly after the directories it needs that no earlier operation needed, and no other directory |
| PlanShape.EmissionOrder | src/sync_planner.cpp:213-397 | renames are emitted first, by target and old name, then the rest by path and target; and an operation is emitted if and only if it is called for and no emitted rename works on its drive and path |
| Directories.WithDirsFacts | src/sync_planner.cpp:199-211 | every emitted directory is needed by an operation that follows it, and every needed one is there before |
| PlanShape.DirectoriesMeans | src/sync_planner.cpp:199-211 | the emitted list with its directories: the list itself in its order, and each beginning before a slash of a copied or new path once, directly before the first operation that wants it, longest first |
| SyncPlanner.PlanSync | src/sync_planner.cpp:171-402 | detection, emission, sort and coalesce together: the plan is what coalescing leaves of the Kahn-ordered emission for the detected renames |
| SyncPlanner.PlanIsDetermined | src/sync_planner.cpp:171-402 | there is only one such plan for given manifests, resolutions and row order |
| PlanOrder.TopologicalSort | src/sync_planner.cpp:87-155 | on every list, cyclic ones included, the output is a permutation: first what the queue reaches, in edge order and first in, first out, then the rest as listed; the queue reaches everything if and only if there is no cycle |
| PlanOrder.EqualPredsKeepOrder | src/sync_planner.cpp:132-146 | operations with the same predecessors keep their order |
| PlanOrder.SortIsDetermined | src/sync_planner.cpp:87-155 | these properties leave one output for every list |
| PlanShape.SortMeans | src/sync_planner.cpp:87-155 | what waits for what, said of kinds, drives and paths: a sorted plan holds first what gets free, in the order in which it does and else in the old order, then, in the old order, what still waits for something of the rest |
| PlanShape.NothingToOrder | src/sync_planner.cpp:87-155 | where nothing waits for anything, sorting changes nothing |
| PlanOrder.StuckMeansCycle | src/sync_planner.cpp:148-152 | if the queue runs dry early, there is a closed walk along the edges |
| PlanOrder.InOrderMeansAcyclic | src/sync_planner.cpp:132-146 | a list that can be put in edge order has no cycle |
| PlanOrder.AcyclicWithoutRenameEdges | src/sync_planner.cpp:101-130 | only a rename can close a cycle |
| PlanOrder.Coalesce | src/sync_planner.cpp:157-169 | the reverse pass with its seen set keeps the last operation of each drive and path, in order |
| PlanOrder.KeepLastKeys | src/sync_planner.cpp:157-169 | after coalescing every drive and path that occurred occurs exactly once |
| PlanOrder.KeepLastIsLast | src/sync_planner.cpp:157-169 | an operation is kept if and only if none with its drive and path comes later |
| PlanOrder.KeepLastIdentity | src/sync_planner.cpp:157-169 | a plan without repeated keys passes through unchanged |
| PlanShape.CoalescedMeans | src/sync_planner.cpp:157-169 | coalescing keeps, in their order, exactly the operations after which none has the same drive and path |
| PlanProperties.RenameFreeMembers | src/sync_planner.cpp:256-397 | without renames, the emission holds exactly the operations that the drives' situations call for, each key once |
| PlanProperties.EmissionMembers | src/sync_planner.cpp:213-397 | with renames, what is emitted is a detected rename or a called-for operation that touches neither of its names |
| PlanProperties.RenamesLeadNowhere | src/sync_planner.cpp:115-121 | in the planner's own graph no edge leaves a rename |
| PlanProperties.EmittedKeys | src/sync_planner.cpp:171-397 | where no live path is a directory above another, no drive and path gets two operations, directories and renames included |
| PlanProperties.PlannerGraphIsAcyclic | src/sync_planner.cpp:87-155 | where no live path is a directory above another, the planner's graph has no cycle, renames included, so the guard never fires |
| PlanProperties.RenameFreeGraphIsAcyclic | src/sync_planner.cpp:87-155 | without renames there is no cycle whatever the tracked paths are |
| PlanProperties.FinishedPlan | src/sync_planner.cpp:157-211 | without repeated keys and cycles, coalescing drops nothing, the plan holds exactly what was emitted, and before every copy to a path that does not end in a slash comes a directory for each beginning of the path before a slash |
| Burial.BuriedIsDropped | src/sync_planner.cpp:132-169 | an operation whose path is a directory above a path copied to the same drive is dropped by coalescing, because the queue keeps it before that directory |
| CrashSafety.CrashOutcome | src/executor.cpp:232-260 | a write over any target, cut off at any step and then recovered, leaves no tmp file, nothing pending, and one of three outcomes for bytes and entry, or bytes that the old entry names |
| CrashSafety.FourthOutcome | src/executor.cpp:416-442 | some crash leads to that fourth outcome if and only if recovery can move the tmp file and bytes that can stand in it are what the old entry names, and neither the target's nor the intended ones |
| CrashSafety.KnownTargetIsSafe | src/executor.cpp:232-260 | where the old entry is silent, or names the present bytes or the intended ones, the three outcomes are all |
| CrashSafety.RecoveryCanBeInterrupted | src/executor.cpp:416-442 | recovery cut off after the files of a row or after its closing, whatever the log holds, ends where it would have ended when started again |
| CrashSafety.RecoveryOnlyCloses | src/executor.cpp:418-441 | open rows of removals and renames are closed, and files and entries stay as they are |
| CrashSafety.EntryFollowsBytes | src/executor.cpp:251-253 | the manifest never takes the new entry before the disk has the new bytes |
| CrashSafety.StepKeepsFilesWhole | src/executor.cpp:217-261 | no single step of writing, removing, renaming or recovering leaves torn bytes at a tracked path |
| CrashSafety.NoTornFilesOverRuns | src/executor.cpp:217-442 | nor does any run of such steps, in any interleaving with crashes and recoveries |
| Executor.CopyFileContents | src/executor.cpp:26-53 | block by block: in every state on the way the tmp file holds a beginning of the data; in the end all of it, or as much as the device took |
| Executor.AtomicWrite | src/executor.cpp:217-261 | which state each fault leaves, exactly, and whether success is reported; every state on the way is one that the crash lemmas cover |
| Executor.ExecuteCopy | src/executor.cpp:299-338 | under every fault the target's files, entries and log rows and the result are the outcome's: nothing without an intact source, else what the write comes to |
| Executor.ExecuteRemove | src/executor.cpp:340-360 | under every fault the outcome: the file goes, or stays where it cannot be unlinked; the entry becomes a tombstone and the row is closed, or, if the manifest cannot be written, the entry stays and the row is left open |
| Executor.ExecuteRename | src/executor.cpp:362-400 | under every fault the outcome: bytes and entry move, the entry with the planned vector, or neither, or, if the manifest cannot be written, the bytes have moved, the old entry is gone and the row stays open |
| Executor.Execute | src/executor.cpp:263-414 | dispatch and errors: under every fault the fleet, the result and the new log rows are exactly the operation's outcome |
| Executor.NoFaultNoLoss | src/executor.cpp:263-414 | where nothing fails, a file or a directory in the way being a failure too, every operation has its full effect and reports success, or has none and reports failure |
| Outcomes.CopyLeaves | src/executor.cpp:217-338 | what a copy leaves under every fault: disk, entry with the planned vector, closed row, tmp file gone, and success exactly if the complete bytes of the named digest were moved into place and recorded |
| Outcomes.RemoveLeaves | src/executor.cpp:340-360 | what a removal leaves under every fault: the file, a tombstone with the planned vector, the row open exactly if that could not be recorded |
| Outcomes.RenameLeaves | src/executor.cpp:362-400 | what a rename leaves under every fault, for every path: bytes and entry under the new name, the entry with the planned vector, nothing under the old one; the row open exactly if the entry is lost |
| Outcomes.NothingElse | src/executor.cpp:263-414 | directories and renames without a new name change no file and no entry, and no operation changes another drive |
| Executor.OpenAfter | src/executor.cpp:340-405 | a log without pending rows has one afterwards if and only if the manifest could not be written and the operation is a removal, or a rename that has moved a tracked file |
| Executor.RecoveryDoesNotRepair | src/executor.cpp:416-442 | recovery then closes that row and leaves the removed file its entry, and the renamed one without any |
| Executor.RecoverIncompleteOperations | src/executor.cpp:416-442 | the loop over the pending rows computes the recovered state, tmp files removed where the rename fails; and recovering again from any state on the way leads there too |
| Outcomes.RecoveredAt | src/executor.cpp:416-442 | recovery path by path, whatever the log holds: an open write is finished if its tmp file has the digest that the manifest names and can be moved, and thrown away if not; all rows are closed and the rest stays |
| Executor.RestoreFromReplica | src/executor.cpp:133-176 | one intact replica after another in id order, faults included: succeeds if and only if one gets through, then restores bytes and mark; else the entry stays and the file is as it was or holds what the entry names; no other file changes |
| Outcomes.DeliversMeans | src/executor.cpp:133-176 | what a replica must be for a restore to succeed with it |
| Outcomes.RestoredMeans | src/executor.cpp:133-176 | what a restore leaves, path by path: bytes of the named digest and no mark where it succeeds, every entry as it was where it fails, no other file changed |
| Executor.ReadFileVerified | src/executor.cpp:111-131 | fails exactly on a tracked file whose bytes do not match, and marks exactly that entry corrupted |
| Outcomes.OwnDirectory | src/executor.cpp:111-131 | the paths that are never verified are the directory of that name and what lies below it |
| Convergence.OneOperation | src/executor.cpp:299-360 | an operation brings its own drive and path to the round's end state and leaves every other one alone |
| Convergence.RoundOutcome | src/sync_planner.cpp:256-397 | a round ends in a state that depends on the state before and the resolutions only |
| Convergence.OrderDoesNotMatter | src/executor.cpp:299-360 | any two ways of carrying out a round end in the same manifests and disks |
| PlanMeaning.PlanKeepsMeaning | src/sync_planner.cpp:157-169 | on any manifests, coalescing keeps what a rename-free plan does if and only if nothing is buried |
| PlanMeaning.DroppedForDirectory | src/sync_planner.cpp:157-169 | whatever was renamed and whatever is above what, a file operation is dropped by coalescing if and only if a directory of its drive and path comes after it |
| PlanMeaning.CoalescedMeaning | src/sync_planner.cpp:157-169 | where no file operation is, coalescing keeps what the plan does, renames included |
| PlanMeaning.PlanConverges | src/sync_planner.cpp:399-401 | on flat disks, where every operation gets through, the drives agree after the plan of a round without renames if and only if nothing that moves bytes is buried; disks match manifests in any case |
| PlanMeaning.LiveTreeBuriesNothing | src/sync_planner.cpp:199-211 | where no live path is a directory above another, nothing is buried |
| PlanMeaning.DisksStayTrees | src/executor.cpp:299-360 | there, without renames, no drive ever holds a file above another file during a round |
| PlanMeaning.BecameDirDiverges | src/sync_planner.cpp:157-169 | a fleet without conflict or rename on which no plan makes the drives agree, on flat disks already: the removal of a file that has become a directory is dropped |
| FileTree.TreeIsFlat | src/executor.cpp:287-400 | where no live path is a directory above another nor a directory on any drive, a plan does on a file tree what it does on flat disks, renames included, and that stays so |
| FileTree.LiveTreeRun | src/executor.cpp:287-400 | where no live path is a directory above another, a plan does on a file tree what it does on flat disks without the operations that are blocked at the start, renames included |
| FileTree.RunKeepsTree | src/executor.cpp:217-414 | whatever operations are carried out on a file tree, no name comes to be both a file and a directory, and what is above a file is a directory |
| FileTree.BlockedChangesNothing | src/executor.cpp:227-260 | a file above the new path, or a directory of its name: the copy or rename fails, and files and entries stay as they are |
| TreeSteps.BlockedMeans | src/executor.cpp:227-253 | no file can be put exactly where a directory has the name or a file stands at a beginning of the path before a slash |
| TreeSteps.FaultMeans | src/executor.cpp:227-400 | which operation fails for what stands on the file tree, exactly |
| TreeSteps.DirectoriesAfter | src/executor.cpp:217-400 | which directories there are after an operation: those above a new file, made before anything else can fail, and a directory made; less an empty one that is removed |
| FileTree.BecameDirIsStuck | src/sync_planner.cpp:157-169 | where a file has become a directory, every plan leaves the fleet as it is, and the drives apart |
| TreeRounds.TreeRunIsThrough | src/executor.cpp:217-360 | without renames, on any file tree whose disks match: a plan does what it does on flat disks without the copies that are blocked at the start |
| TreeRounds.TreeConverges | src/main.cpp:550-577 | then the drives agree afterwards if and only if nothing that moves bytes is buried and no copy that is called for is blocked at the start |
| TreeRounds.TreeResult | src/executor.cpp:299-360 | and a file operation of the plan succeeds if and only if it is no copy that is blocked at the start |
| TreeRounds.DirBecameFileIsStuck | src/executor.cpp:250-344 | a directory that has become a file on one drive: no conflict, no rename, nothing buried, and on flat disks every plan would make the drives agree; on the file tree none does, and what it leaves is again such a tree |
| TreeRounds.BecameFileFits | src/executor.cpp:250-344 | one such tree, of two drives and two paths |
| Convergence.OneRoundConverges | src/sync_planner.cpp:256-397 | after one round without renames in which every operation gets through, every path is on all drives with the same bytes or on none, and disks match manifests |
| Convergence.FileOpSucceeds | src/executor.cpp:299-360 | in such a round, on flat disks, every file operation succeeds where the device does |
| Quiescence.RoundSettles | src/sync_planner.cpp:256-397 | after any round every path is live on all drives with one digest, or on none |
| Quiescence.SettledMeansNoRenames | src/sync_planner.cpp:55-82 | settled drives call for no rename, whatever they have deleted |
| Quiescence.SettledOp | src/sync_planner.cpp:351-396 | on settled drives an operation is planned if and only if the source's vector dominates, and it lifts the target's vector strictly, to the path's join, over equal digests |
| Quiescence.JoinIsKept | src/sync_planner.cpp:347-350 | later rounds do not change what a path's join is |
| Quiescence.RoundShrinksLag | src/sync_planner.cpp:347-397 | a settled round takes exactly the drives and paths it works on out of those that are behind |
| Quiescence.WorkIsLagLost | src/sync_planner.cpp:347-397 | over any number of settled rounds the operations number exactly the lag that has gone |
| Quiescence.TouchedOnce | src/sync_planner.cpp:347-397 | no drive is worked on twice for the same path |
| Quiescence.TwoRoundsSuffice | src/sync_planner.cpp:327-397 | outside the quorum, after a round that worked on a path one more finishes it, unless a resolution steps in |
| Quiescence.LaterRounds | src/main.cpp:448-577 | over whole runs of rounds on drives: converged, files as after the first round, nothing to rename, only replacements by equal bytes |
| Quiescence.SomeRoundIsQuiet | src/main.cpp:448-577 | whatever the resolutions, among more rounds than there is lag one has nothing to do |
| Quiescence.QuietForEver | src/main.cpp:448-577 | where manifests decide resolutions, every round from the one on that the lag bounds has nothing to do and changes nothing |
| Quiescence.BoundedQuiescence | src/main.cpp:448-577 | the same on the drives, for any rounds that start settled |
| RenameRounds.RenameInstallsJoin | src/sync_planner.cpp:217-249 | every detected rename is planned, once, from the first drive that has the new name, with the least vector that knows of every version under either name |
| RenameRounds.RenameDelivers | src/executor.cpp:362-400 | the target gets under the new name the bytes the calling drive has there, loses the old name and nothing else, and the rename is not detected again |
| RenameRounds.RenameIsRecorded | src/executor.cpp:389-394 | after a planned rename the entry under the new name is the old one with the least vector that knows of every version under either name |
| RenameConvergence.RenameRoundConverges | src/sync_planner.cpp:213-397 | where no live path is a directory above another, a sync on flat disks in which every called-for rename fits makes the drives agree, whatever else it does and in whatever order |
| RenameConvergence.RenameIsDone | src/sync_planner.cpp:213-254 | where no live path is above another and old and new names go in pairs on each drive, every plan carries every called-for rename out: in the end its contents are under the new name, and nothing under the old one |
| RenameConvergence.MisfitKeepsApart | src/sync_planner.cpp:213-397 | there, a called-for rename that does not fit keeps the drives apart, if some name is both an old and a new one or no old name is renamed on its own source |
| RenameConvergence.ChainedKeepsApart | src/sync_planner.cpp:213-254 | there, a name that is a new one on one drive and an old one on another keeps the drives apart, under every plan |
| RenameConvergence.RenameRoundExactly | src/sync_planner.cpp:213-397 | there, with no two contents of one digest, if some name is both an old and a new one or no old name is renamed on its own source, the drives agree after a sync on flat disks if and only if every called-for rename fits |
| RenameTrees.TurningConverges | src/executor.cpp:299-400 | on a file tree where no live path is above another, a sync makes the drives agree if no called-for copy is blocked and each called-for rename fits, or is blocked where it should not have been called for |
| RenameTrees.RenameTreeExactly | src/executor.cpp:299-400 | and only then, if old and new names go in pairs on each drive, none is both, and no old name is renamed on its own source |
| RenameTrees.RenameTreeIsFlat | src/executor.cpp:299-400 | where no live path is a directory on any drive, the drives agree after a sync on the file tree exactly where they do on flat disks, names that are both old and new included |
| RenameTrees.RenamedOntoDirIsStuck | src/executor.cpp:381-387 | a file renamed to a name that is still a directory on the other drive: every rename fits, and every plan leaves the fleet and that directory as they are |
| CrossedNames.CrossedStaysApart | src/sync_planner.cpp:213-254 | one file renamed in opposite directions on two drives: each name is both old and new, and every plan makes the drives trade places |
| CrossedNames.RenamedOnceConverges | src/sync_planner.cpp:213-254 | one file renamed on one drive: every plan makes the drives agree |
| Pipeline.SettlingIsDetermined | src/main.cpp:448-466 | the manifests decide the list of conflicts and every resolution |
| Pipeline.MakePlan | src/main.cpp:448-466 | conflicts, in path order, and resolutions are exact, and the plan is the planner's |
| Pipeline.PlanInOrder | src/sync_planner.cpp:157-211 | where no live path is a directory above another, or nothing was renamed and nothing is buried, a plan has each key once and directories before copies |
| Pipeline.ExecutePlan | src/main.cpp:550-577 | the loop over the plan: under any faults fleet and results are exactly what the operations' outcomes make of them, histories stay whole, and a drive's log ends with a pending row if and only if it had one or some operation left it open there |
| Pipeline.SufferedInOrder | src/main.cpp:550-577 | operations are carried out from the first to the last, each under the fault of its own number |
| Pipeline.OnlyUpsertsLeaveOpen | src/executor.cpp:340-405 | where every manifest can be written, no row is left open |
| Pipeline.Sync | src/main.cpp:408-592 | the whole command on the drives: fewer than two drives or a dry run changes nothing; otherwise detection, resolution and plan are exact and carried out as above. If nothing fails but for what stands in the way on the file tree, disks match manifests and nothing was renamed: exactly the copies blocked at the start fail, the drives agree afterwards if and only if there are none and nothing that moves bytes is buried, and disks still match |
| Pipeline.NeverTorn | src/main.cpp:550-577 | in every state any drive passes through during a sync, under any faults, a tracked file holds complete bytes that some drive held or some manifest named at the start |
| RepeatedSync.FirstSync | src/main.cpp:448-577 | a sync of file trees with matching disks and nothing renamed keeps disks and manifests matched, and settles the drives, which is to make them agree, if and only if nothing that moves bytes is buried and no copy is blocked |
| RepeatedSync.SyncIsRound | src/main.cpp:448-577 | a sync of settled drives is a round in which nothing is blocked or buried, moves no bytes, and leaves them settled |
| RepeatedSync.SyncingComesToRest | src/main.cpp:448-577 | sync after sync on file trees: if nothing was renamed when the first began, and it neither buries anything that moves bytes nor finds a copy blocked, the drives agree from then on and no file changes; and from the sync on that the lag bounds, every plan is empty and nothing changes |
| RepeatedSync.NeverComesToRest | src/main.cpp:448-577 | where a directory has become a file, no number of syncs makes the drives agree, and no plan is empty |
| ManualResolution.ResolveByHand | src/main.cpp:292-335 | fails exactly if the drive or its entry is missing; otherwise every manifest takes the winner's entry under one new vector and no file is touched |
| ManualResolution.HandVectorAdvances | src/main.cpp:318-325 | the new vector dominates every version there was if and only if the winner's clock does not wrap |
| ManualResolution.HandVectorIs | src/main.cpp:318-325 | the new vector clock by clock: the greatest in any version, one more modulo 2^64 for the winner's own |
| ManualResolution.HandResolvedIs | src/main.cpp:327-331 | afterwards every drive has the winner's entry with that vector, and nothing else has changed |
| ManualResolution.HandResolvedIsQuiet | src/main.cpp:327-331 | afterwards the path is in no conflict and no sync plans anything for it |
| ManualResolution.HandResolvedMovesNothing | src/main.cpp:327-331 | a drive ends up with what its manifest then says if and only if it already had it, also after a further round |
| Merkle.CollectLeaves | src/merkle_engine.cpp:253-261 | appends all leaves below a node in order |
| Merkle.Diff | src/merkle_engine.cpp:263-311 | on any two trees the three lists hold exactly what the pruned comparison finds, in the order of the traversal; on well-formed trees at one path each path once |
| ReportOrder.ReportedInOrder | src/merkle_engine.cpp:263-311 | the three lists, in order: the leaves of the children that one side lacks, by path, then what comparing the common children reports, by path |
| ReportOrder.CollectedInOrder | src/merkle_engine.cpp:253-261 | the leaves below a directory are those of its children, child by child |
| ReportOrder.ChildIsLast | src/merkle_engine.cpp:275-281 | the child that counts at a path is the last one listed with it |
| Merkle.AddsAreAdded | src/merkle_engine.cpp:283-308 | whatever is reported as added or, the other way round, deleted is a real difference of the two sets of files |
| Merkle.ModifiesAreModified | src/merkle_engine.cpp:270-308 | whatever is reported as modified is in both with different digests |
| Merkle.ExactWhereFaithful | src/merkle_engine.cpp:263-311 | the reports are exactly the flat difference if and only if, wherever the diff looks, equal hashes mean equal files and nothing has changed its kind |
| Merkle.ComparableIsFaithful | src/merkle_engine.cpp:263-311 | it is enough that nodes at one path are of one kind and equal in their files when equal in their hashes |
| Merkle.KindChangeIsMissed | src/merkle_engine.cpp:270-293 | a file that has become a directory, or the other way round, is not reported itself |
| Merkle.SwapReports | src/merkle_engine.cpp:263-311 | comparing the other way round trades additions for deletions and keeps the modifications |
| TreeHash.ComputeDirectoryHash | src/merkle_engine.cpp:97-108 | sort, concatenate, digest |
| ScanTrees.DirectoryHashIs | src/merkle_engine.cpp:97-108 | a directory's hash is the digest of its entries' hashes written one after the other in ascending order |
| TreeHash.HashIsOfEntries | src/merkle_engine.cpp:97-108 | two directories hash equally if and only if their entries' hashes are the same multiset |
| TreeHash.TradedContentsAreMissed | src/merkle_engine.cpp:97-108 | two files that trade contents leave the root hash as it was, and the diff reports nothing |
| ScannedDiff.ExactWhereNothingHidden | src/merkle_engine.cpp:97-311 | on trees hashed from their entries, the diff is exact if and only if, all the way down, directories whose entries have the same hashes have the same files, and nothing has changed its kind |
| ScannedDiff.ScansCompared | src/merkle_engine.cpp:110-311 | the same of any two scans |
| Scan.ScanFile | src/merkle_engine.cpp:126-190 | one file: error, cache hit with revival, or rehash, with the digest and the entry each leaves (what that comes to: ScanProperties.EntriesScanned) |
| Scan.BuildNode | src/merkle_engine.cpp:110-233 | the recursive scan over the store computes the tree and the manifest of the specification |
| Scan.BuildMeans | src/merkle_engine.cpp:110-233 | the tree is well formed, its leaves are exactly the visible files that yielded a digest, each visible file's entry is renewed from its own old one, and nothing else changes |
| Scan.TombstonePass | src/main.cpp:189-200 | in whatever order the store lists its entries, exactly the live ones not come upon are tombstoned under a new clock |
| Scan.ScanDrive | src/main.cpp:157-211 | scan and pass together |
| Scan.CacheIsTransparent | src/merkle_engine.cpp:149-172 | scanning with a cache gives the tree of scanning without one if and only if every hit names the digest of a readable file |
| ScanTrees.DirectoryNode | src/merkle_engine.cpp:193-233 | the node of a directory: level one, the nodes of its entries in name order without hidden ones and those without a hash, every directory among them, and the digest of their hashes; one that cannot be listed counts as empty |
| ScanProperties.VisibleExactly | src/merkle_engine.cpp:110-233 | what a scan sees is exactly the files that names without a leading dot lead to through listable directories, under those names joined by slashes |
| ScanProperties.EntriesScanned | src/merkle_engine.cpp:149-182 | entry by entry, of any visible file or none: recorded digest kept where size and modification time are as recorded, else digest of the contents with the new size and time, live; tombstoned where the file cannot be read or is not there; digests of leaves are those of the entries |
| ScanProperties.LiveIsLeaf | src/main.cpp:189-200 | after a scan the live paths are exactly the leaves of the tree |
| ScanProperties.HiddenRootLosesAll | src/merkle_engine.cpp:122-124 | below a mount point with a hidden name every live path is tombstoned |
| ScanProperties.SecondScanIsIdle | src/merkle_engine.cpp:149-190 | a second scan of the unchanged drive gives the same tree and alters no entry |
| ScanProperties.ScannedVector | src/merkle_engine.cpp:174-182 | a vector moves only when its path is tombstoned, and then its own drive's clock goes up by one modulo 2^64 and no other |
| ScanProperties.ScanMakesMatch | src/merkle_engine.cpp:149-182 | the scan leaves the manifest matching the visible files, which is what a sync needs, if and only if every file was taken at the digest of its contents |
| LostEdits.EditIsScanned | src/merkle_engine.cpp:149-182 | an edit with another size or modification time is recorded with the digest of the new contents while the vectors stay in step, and is no conflict; one with neither is not recorded at all |
| EditRounds.EditIsKept | src/sync_planner.cpp:327-397 | without renames, on flat disks: a sync gives all drives the edited contents if and only if the edited drive is the first in id order that has the path and no operation that would carry them is buried; a drive that is not the first ends with the old contents, unless its own operation is buried |
| EditRounds.EditIsKeptOnTree | src/executor.cpp:217-338 | the same on file trees, where a blocked copy counts as a buried one |
| EditRounds.EditSurvives | src/sync_planner.cpp:213-397 | with renames, where no live path is above another: all drives get the edited contents if the edited drive comes first and every rename called for to that path moves the same contents; a drive that does not come first loses its edit |
| EditRounds.EditSurvivesExactly | src/sync_planner.cpp:213-397 | and only if, where on each drive one old name goes to that path and goes nowhere else |
| EditRounds.EditSurvivesOnTree | src/executor.cpp:299-400 | on file trees: and no copy of the path that is called for is blocked |
| EditRounds.RenameOverridesEdit | src/sync_planner.cpp:213-254 | three drives on which the edited one comes first, nothing is in conflict at the path, and every plan leaves the old contents under it on one drive, by a rename |
| Rabin.RabinTable | src/cdc_chunker.cpp:18-30 | filled in place, each entry is its index after eight bit steps |
| Rabin.TableIsBitSteps | src/cdc_chunker.cpp:88 | the table update of a byte equals eight applications of the polynomial step, for every fingerprint and byte |
| Rabin.FingerprintLinear | src/cdc_chunker.cpp:88 | the fingerprint of the exclusive-or of two equally long chunks is the exclusive-or of their fingerprints |
| Rabin.HighBitLeavesPolynomial | src/cdc_chunker.cpp:18-30 | the fingerprint of the byte with its high bit alone set is the polynomial |
| Chunker.NewChunker | src/cdc_chunker.cpp:33-47 | refuses sizes outside the bounds; the mask is one less than the smallest power of two that is no less than the average |
| Chunker.NextCutIsFirst | src/cdc_chunker.cpp:88-94 | a cut is the first length at which the chunk's own bytes ask for one, and there is none only if none does |
| Chunker.ChunkBuffer | src/cdc_chunker.cpp:78-108 | the one-pass loop with the table computes the chunks of the recursive specification |
| Chunker.ChunkFile | src/cdc_chunker.cpp:110-131 | files of at most 1048576 bytes are one chunk, even an empty one; longer ones are chunked as above |
| Chunker.ChunksTile | src/cdc_chunker.cpp:84-108 | chunks tile the data without gap or overlap, each with its offset and the digest of its bytes |
| Chunker.ChunkSizes | src/cdc_chunker.cpp:90-108 | all chunks but the last are between 16384 and 262144 bytes; the last is not empty and at most 262144 |
| Chunker.ChunksWhereAsked | src/cdc_chunker.cpp:33-108 | where the cuts are: a chunk before the last has 262144 bytes, or at least 16384 with a fingerprint divisible by the power of two for the average; and no shorter beginning of any chunk of at least 16384 bytes has such a fingerprint |
| Chunker.OneWayToCut | src/cdc_chunker.cpp:78-108 | these conditions leave one way to cut given data |
| Chunker.ZerosAreCutEarly | src/cdc_chunker.cpp:88-99 | zero bytes are cut after every 16384 |
| Chunker.ChunksFromBoundary | src/cdc_chunker.cpp:94-99 | from any boundary on, the chunks are those of the remaining bytes alone, offsets shifted |
| Chunker.CommonPrefix | src/cdc_chunker.cpp:84-108 | two buffers share every chunk that ends inside their common beginning, except the tail of one |
| Chunker.SameRemainder | src/cdc_chunker.cpp:84-108 | whatever comes before, a boundary before the same remainder gives the same chunks |
| Delta.DiffChunks | src/cdc_chunker.cpp:133-146 | exactly the new chunks whose digests no old one has, in their order |
| Delta.DeltaRebuilds | src/cdc_chunker.cpp:133-146 | the old file and the bytes of the changed chunks give back the new file |
| Delta.FilesRebuild | src/cdc_chunker.cpp:110-146 | the same for what the chunker makes of any two files, large or small |

## Left out

- SQLite, its pragmas, retries and failures: the manifest is a map and the log a sequence of rows; begin, delete and complete are assumed to work, an upsert may fail.
- SHA-256 (FIPS 180-4) and the hexadecimal form of digests: a digest function is a parameter.
- The file system below a drive: renames are atomic, permissions and ownership are not copied. Except in `FileTree`, `TreeRounds`, `RenameTrees`, `RepeatedSync` and where a member says so, a disk is a flat map: a file and a directory of one name do not exclude each other, and MKDIR changes nothing. In `FileTree`, removing a tracked path that is a directory takes it if it is empty, and renaming a directory as a whole is not modelled.
- Mount points: a log row's path is absolute in the program and relative to the drive here, so recovery after mounting elsewhere is not modelled; nor are drives that vanish during a run, or stores that are null.
- Modification times: a file's time is a number that stays what it is. The program converts it through two clocks, which may round differently on two scans.
- The Merkle node table: the scan writes it, nothing reads it. Failing manifest writes during a scan, the list of scan errors and symbolic-link loops are left out too.
- Rows of `get_all_files` come in an order the program does not fix. Rename detection takes it as a parameter, and the tombstone pass is proved for every order.
- RenameConvergence.RenameRoundExactly: two shapes are outside the if-and-only-if: two new names for one old one or two old ones for one new one on one drive, and an old name that is renamed on the drive that is its source, where the outcome hangs on the place of the rename in the plan. For them there is the sufficient condition.
- RenameTrees.RenameTreeExactly: names that are both old and new are outside it, unless no live path is a directory on any drive (`RenameTrees.RenameTreeIsFlat`).
- PlanMeaning.CoalescedMeaning: for plans with renames it goes one way; that a dropped operation changes the outcome is proved where nothing was renamed (`PlanMeaning.PlanKeepsMeaning`).
- Drives.Drive.UpsertFile: sizes and times pass through a signed column in the program; that cast is not modelled.
- Drive ids: results on quorum vectors and on renames being planned suppose that no drive has the empty id, which the program uses for "none".
- Resolver side data (`actions`, the merged vector in the quorum text, the recommended strategy): only printed.
- Progress reporting, logging, the command line, configuration, drive detection, the Bloom filter, path normalisation: easy, or not part of the sync pipeline.
