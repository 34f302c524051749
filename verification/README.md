# MnemonicOS: a verified model of its algorithms and protocols

This project models the self-contained algorithms and state machines of MnemonicOS in Dafny
and proves what they promise. `dafny verify dfyconfig.toml` checks all of it.

SQL tables are maps and sets. Python objects that are updated in place are classes, and each
of their methods is tied to a function or relation on the old and the new state; the lemmas
are about those functions. Ids, chains, relations and tags are wrapped strings.

| file | component |
|---|---|
| `TriangularPiles.dfy` | splitting a scroll count into triangular piles: branch and bound, and the capped greedy form |
| `UnionFindClusters.dfy` | union-find over a dict forest, and the slicing of large clusters |
| `GraphIndex.dfy` | the wiki graph tables and their rebuild from notes |
| `TraceSearch.dfy` | the budgeted breadth-first search for trace context |
| `MemoryPacket.dfy` | the removal of duplicates across the six slots of a memory packet |
| `Assessment.dfy` | roles, functional path, branches, assessment, and what is emitted |
| `SimHash.dfy` | SimHash signatures, their bands, and what sharing a band guarantees |
| `ArtifactIdentity.dfy` | fingerprints, similarity scores and the duplicate verdict |
| `ArchiveStore.dfy` | archive rows, the band index and the canonical pointers over ingest and reprocess steps |
| `OverlapFlag.dfy` | three archives that show the effect of the shared overlap flag |
| `ChainDiverseTopK.dfy` | top-k selection with a cap per chain |
| `Scheduler.dfy` | the job scheduler's locks and maps under every interleaving |
| `Cron.dfy` | cron matching, the next minute, and the job registry |
| `ExtractionQueue.dfy` | the extraction queue: claims, failures, retries, tombstones, revisits |
| `RecallMerge.dfy` | the merge of recall candidates |
| `ActiveFile.dfy` | parsing and printing `ACTIVE.md` |
| `OrderedLists.dfy`, `Strings.dfy`, `Wrappers.dfy` | ordered unions, `strip`/`splitlines`/`join`, options and ids |

## Where the code falls short of a promise

Each of these is proved: as a concrete case, as the exact condition under which the promise
holds, or both.

- On a functional path over four or more chains, branches are numbered before the list is cut
  to three. No id is lost, because the selected view repeats the whole path
  (`Assessment.NoIdIsLost`). But once a branch is selected, all that is emitted of the records
  of a memory past the third one is that path entry: it stands in no slot of the view and in no
  deferred branch, even when the packet is recommended for reuse
  (`Assessment.AllPlacedExactlyWhen`, `Assessment.FourChainsLeaveOneUnplaced`).
- Several chains make a packet "overabundant", and an overabundant packet is recommended for
  reuse whatever roles its path misses (`Assessment.ReuseExactlyWhen`). Two branches of the
  code cannot be reached: the fallback on a chain with two members
  (`Assessment.FallbackNeverFires`) and "success without context"
  (`Assessment.SuccessOnlyMeansNoPath`).
- A worker gives back its job lock before it removes its `_running` entry. A successor can
  register in between and is then removed instead, so shutdown no longer waits for it
  (`Scheduler.InvisibleWorker`, `Scheduler.HiddenExactlyWhenStraggler`).
- When one due job's schedule has no next minute, `due_jobs` raises after it has already
  advanced the jobs before it; those are skipped until their next slot
  (`Cron.JobRegistry.DueJobs`). A schedule that registers without complaint can get there:
  `0 0 29 2 *` registered in January 2024 is due on 29 February and then stuck
  (`Cron.LeapDay2024`).
- A step in the weekday field of a cron expression tests the day of the month, so it selects
  the weekdays it names only if it is 1 (`Cron.WeekdayStepReadsTheDay`).
- With 7 for Sunday in the weekday field a schedule never fires
  (`Cron.WeekdayNumberExactlyWhen`).
- A document that grows only by repeating itself is called a duplicate of its shorter version
  (`ArchiveStore.GrownFileExactlyWhen`).
- The overlap flag is shared by all candidates: one weakly overlapping candidate turns a
  near-identical one from a duplicate into "overlap related"
  (`ArtifactIdentity.OverlapFlagIsShared`, `OverlapFlag.OverlapFlagExample`).
- A reprocess that passed its check before its row became a duplicate can turn that duplicate
  back into an original: two overlapping reprocesses do, around a file that is rewritten and
  restored (`ArchiveStore.RevivingRun`). A duplicate is permanent exactly when no such
  reprocess of it is under way (`ArchiveStore.DuplicateIsPermanentExactlyWhen`), and an exact
  duplicate always is (`ArchiveStore.ExactDuplicatesArePermanent`).
- A fingerprint covers the format and the first 1000 characters of the text, and a match is
  final. While an original covers the same, every new file that does becomes a duplicate of it
  for good, however different the rest (`ArchiveStore.CoveredIngestIsDuplicate`). PDFs are by
  default ingested without reading their text, so while one of them is an original that was
  last read that way, every further one ingested like this is called a duplicate of it.
- The reports of extraction workers do not look at the row. A worker that outlives a restart of
  the daemon can turn a tombstoned row into a processed one or into an ordinary failure that is
  retried (`ExtractionQueue.LateReportRevives`); a tombstone is safe exactly when no worker
  still owes a report (`ExtractionQueue.TombstonedForExactlyWhen`). Such a worker can also
  make two timeout retries come at the same attempt count
  (`ExtractionQueue.LateTimeoutRepeatsACount`).
- The tombstone of a row that timed out to the end advises a retry by hand. That keeps the
  attempt count, so it gives one attempt, and none at all from ten attempts on unless the row
  is claimed before the next retry job (`ExtractionQueue.ManualRetryIsOneAttempt`).
- A failed revisit that is due for a retry and a new revisit give one source two live rows
  (`ExtractionQueue.DoubleRevisitExactlyWhen`).
- A manual section of `ACTIVE.md` that begins with an indented heading line loses its content
  at the next refresh (`ActiveFile.IndentedHeadingIsLost`, `ActiveFile.RefreshKeepsExactlyWhen`).
- The rebuilt graph depends on the order of the notes as soon as one note points at another
  whose table row disagrees with its file (`GraphIndex.OrderMattersExactlyWhen`).

## Model

| member | source | states |
|---|---|---|
| TriangularPiles.TriClosedForm | src/mnemonicos_game/scene_helpers.py:1068-1069 | the closed form counts the scrolls of a pile row by row |
| TriangularPiles.TriangularNumberFormula | src/mnemonicos_game/scene_helpers.py:1068-1069 | the closed form on any integer, a negative base counting as one less turned around |
| TriangularPiles.PileSearch.Search | src/mnemonicos_game/scene_helpers.py:1091-1110 | a call restores the stack, only improves the incumbent, changes it only to a completion of the stack, and leaves it at least as good as every completion, pruned or not |
| TriangularPiles.DecomposeTriangularPiles | src/mnemonicos_game/scene_helpers.py:1085-1113 | the result sums to the total, is non-increasing, and no list of positive bases in any order is shorter or, equally long, lexicographically greater |
| TriangularPiles.OptimalIsUnique | src/mnemonicos_game/scene_helpers.py:1085-1113 | that optimum is unique |
| TriangularPiles.SortDownFacts | src/mnemonicos_game/scene_helpers.py:1096-1108 | searching only non-increasing lists loses nothing: sorting a list keeps its sum and length and is never lexicographically smaller |
| TriangularPiles.SmallestTriangularBase | src/mnemonicos_game/scene_helpers.py:1072-1076 | the least base whose triangular number reaches the total |
| TriangularPiles.NextCappedBase | src/mnemonicos_game/scene_helpers.py:1012-1018 | each greedy pile is the widest one of at most the cap that fits |
| TriangularPiles.DecomposeGreedily | src/mnemonicos_game/scene_helpers.py:1006-1019 | with a cap of at least 1 the loop ends, and every pile is the widest that fitted when it was placed |
| TriangularPiles.DecomposeCapped | src/mnemonicos_game/scene_helpers.py:1006-1019 | for every cap with which the original ends: greedy piles from 1 upwards, and below -1 the fewest copies of the cap that reach the total |
| TriangularPiles.CopiesHitExactlyWhen | src/mnemonicos_game/scene_helpers.py:1011-1019 | such copies overshoot by less than one pile, and hit the total if and only if the pile divides it |
| TriangularPiles.GreedyFacts | src/mnemonicos_game/scene_helpers.py:1006-1019 | a greedy list sums to the total, stays within 1 and the cap, descends, and is the only one |
| TriangularPiles.UncappedRemainder | src/mnemonicos_game/scene_helpers.py:1013-1018 | after a pile the cap did not limit, at most its base is left |
| TriangularPiles.UncappedPileCount | src/mnemonicos_game/scene_helpers.py:1006-1019 | without a cap n piles need a total that grows doubly exponentially in n |
| TriangularPiles.UncappedPileCountAttained | src/mnemonicos_game/scene_helpers.py:1006-1019 | that bound is attained for every n |
| TriangularPiles.CappedPileCount | src/mnemonicos_game/scene_helpers.py:1006-1019 | a capped result is full-width piles followed by an uncapped tail |
| UnionFindClusters.Forest.Find | src/second_brain/maintenance.py:781-788 | both loops end, the result is the root, and path compression changes no node's root |
| UnionFindClusters.Forest.Union | src/second_brain/maintenance.py:790-793 | exactly the nodes rooted at the second root move to the first; the forest stays acyclic |
| UnionFindClusters.RootsDecide | src/second_brain/maintenance.py:778-805 | roots that agree on every pair and are connected to their nodes decide connectedness |
| UnionFindClusters.GroupByRoot | src/second_brain/maintenance.py:801-805 | filling a dict of lists by root partitions the nodes by root |
| UnionFindClusters.UnionFindClusters | src/second_brain/maintenance.py:778-805 | the groups are non-empty, duplicate-free and cover the mentioned nodes; two nodes share a group if and only if the pairs connect them |
| UnionFindClusters.CapClusters | src/second_brain/maintenance.py:928-941 | the chunks are the slices of the large enough clusters |
| UnionFindClusters.SlicedFacts | src/second_brain/maintenance.py:931-941 | slicing keeps every member once and in order; every slice but the last is full |
| UnionFindClusters.ChunksRespectComponents | src/second_brain/maintenance.py:928-941 | every chunk is one to the maximum number of notes of one large enough component |
| UnionFindClusters.CappingKeepsMembers | src/second_brain/maintenance.py:928-941 | capping keeps exactly the members of the large enough clusters, in their order |
| UnionFindClusters.CappingReachesLarge | src/second_brain/maintenance.py:928-941 | a note is handed to validation if and only if its group has at least the minimum number of notes |
| GraphIndex.Index.RebuildNote | src/second_brain/graph.py:107-161 | deleting and re-adding a note's outgoing edges equals the functional rebuild of that note |
| GraphIndex.Index.RebuildWiki | src/second_brain/maintenance.py:35-93 | a live run performs the functional rebuild and counts what it pruned; a dry run changes nothing |
| GraphIndex.Index.DemoteOrDeleteNoteNode | src/second_brain/graph.py:164-183 | a node that something still points at becomes an entity, any other is deleted; no edge comes to dangle |
| GraphIndex.NotesEffect | src/second_brain/graph.py:83-161 | the whole pass over the notes in closed form: last claim per source, last write per node |
| GraphIndex.RebuildIsExact | src/second_brain/maintenance.py:50-93 | after a live rebuild every parsed note's edges are exactly its declared relations minus self-loops; no edge dangles and no entity is isolated |
| GraphIndex.RebuildStores | src/second_brain/graph.py:97-161 | what the nodes and edges of a rebuild say: rows of the notes table, files, or entities; the weight of an unlisted relation is one half; a node is a note exactly when it carries its own id |
| GraphIndex.RebuildIsIdempotent | README.md:194-195 | a second rebuild changes nothing |
| GraphIndex.OrderDoesNotMatter | src/second_brain/graph.py:107-161 | when the table agrees with the files about every target, the order of the notes is irrelevant |
| GraphIndex.OrderMattersExactlyWhen | src/second_brain/graph.py:107-161 | and only then |
| TraceSearch.CompleteTrace | src/second_brain/runtime.py:463-546 | at most eight distinct non-seed notes in non-decreasing depth of at most two, each at its shortest distance over admitted edges with a real chain of that length; below eight nothing within distance two was missed; with the limit flag down nothing at any distance was. The omitted relations are barred relations of notes that were looked at, and below eight they are all of those |
| TraceSearch.TrailIsReal | src/second_brain/runtime.py:500-530 | the chain of an added note leads hop by hop from a seed along stored edges of allowed relations over loadable, admitted notes |
| TraceSearch.AdmittedExactlyWhen | src/second_brain/runtime.py:664-700 | a note is admitted if and only if its role is wanted, it is anchored or exempt, and it replaces something or its role is needed for the purpose |
| TraceSearch.RaiseLevel | src/second_brain/runtime.py:490-500 | when the queue moves on to the next level, all shortest distances up to it are known |
| TraceSearch.NothingWithinReachMissed | src/second_brain/runtime.py:490-546 | with an empty queue everything within the depth bound was found |
| TraceSearch.NothingMissed | src/second_brain/runtime.py:490-546 | and if nothing sits at the depth bound, everything reachable was |
| TraceSearch.ExpandHead | src/second_brain/runtime.py:500-540 | following the edges of one note keeps the search invariant and closes that note, unless the budget ran out |
| MemoryPacket.MemoryPacket.Dedupe | src/second_brain/runtime.py:898-921 | each slot keeps the memories whose id occurs in no earlier slot or place, every survivor carries what all memories of its id brought, and the reported ids are the repeated ones |
| MemoryPacket.DedupedIds | src/second_brain/runtime.py:898-921 | ids are pairwise distinct across the six slots, none is lost, and each stands in the earliest slot that held it |
| MemoryPacket.SurvivorIsFirst | src/second_brain/runtime.py:902-912 | the surviving object of an id is the first one met |
| MemoryPacket.RepeatsAre | src/second_brain/runtime.py:905-909 | an id is reported if and only if it is met a second time |
| MemoryPacket.GatheredIsMerged | src/second_brain/runtime.py:902-912 | a survivor's metadata is the fold of everything its id brought, in packet order |
| MemoryPacket.CarriedIsMerged | src/second_brain/runtime.py:898-921 | so that is what the survivors of the pass carry |
| MemoryPacket.MergedLists | src/second_brain/runtime.py:935-946 | when a survivor absorbs one memory or more of its id, channels, relations, provenance and edge path are the ordered unions, each value once |
| MemoryPacket.MergedNumbers | src/second_brain/runtime.py:939-941 | the smallest rank present and the largest score |
| MemoryPacket.MergedTrace | src/second_brain/runtime.py:942-945 | trace source and depth come from the first memory that has one |
| MemoryPacket.SecondPassChangesNothing | src/second_brain/runtime.py:898-921 | deduplication is idempotent on slots, metadata and report |
| Assessment.AssignRoles | src/second_brain/runtime.py:949-953 | every memory gets the role its facts and merged relations determine, and the place in the path that its role and rank give |
| Assessment.RoleExactlyWhen | src/second_brain/runtime.py:1164-1185 | each role has its own condition on facts and relations: raw, contested and failed come before everything else, decisions before successes, successes before the rest |
| Assessment.FunctionalExactlyWhen | src/second_brain/runtime.py:1020-1020 | the relations that put a memory on the path whatever its role |
| Assessment.PathOrderExactlyWhen | src/second_brain/runtime.py:993 | of two path memories the earlier is the one of the earlier stage, then of the smaller rank, a missing one counting between 99 and 100, then of the earlier title |
| Assessment.FallbackNeverFires | src/second_brain/runtime.py:983-991 | the fallback on a chain group can never find one, because every chained memory is a candidate already |
| Assessment.BuildPath | src/second_brain/runtime.py:983-1011 | the path is empty with fewer than two candidates; otherwise it is all of them, each once, in ascending key order |
| Assessment.OnPathExactlyWhen | src/second_brain/runtime.py:983-1021 | a memory is on the path if and only if it is chained, plays a part of its own or is functionally related, and another such memory exists; the path is in key order |
| Assessment.BuildReservoir | src/second_brain/runtime.py:1106-1161 | the reservoir is the first three branches in key order, while the branch number is written to every memory of the path |
| Assessment.Finalize | src/second_brain/runtime.py:881-886 | deduplication, roles, path and reservoir in sequence leave every memory with its role and order, and a valid packet whose branch fields are what the results on emission start from |
| Assessment.BranchesPartition | src/second_brain/runtime.py:1110-1121 | the branches partition the path |
| Assessment.DedupedIsValid | src/second_brain/runtime.py:881-886 | deduplication leaves a packet with unique ids, which is what the results on assessment and emission start from |
| Assessment.TaggedIsAssigned | src/second_brain/runtime.py:1121-1125 | the branch fields written on the memories are the numbers of their branches, and none elsewhere |
| Assessment.ReuseExactlyWhen | src/second_brain/assessor.py:195-301 | reuse is recommended if and only if there is no contradiction, a primary memory, no historical query, only substantial primaries, nothing stale, suspect, contested, archived or flagged in any slot, and a path that leads to success by the roles on it |
| Assessment.FreshResearchExactlyWhen | src/second_brain/assessor.py:263-301 | fresh research is recommended if and only if there is a contradiction, a single chain whose failure lacks an explanation or a success or whose success stands alone, no primary memory (unless archive context sits beside one unbroken chain with a success and no budget was cut), or only stale or some contested primaries; everything else is reuse with verification |
| Assessment.BrokenChainIsResearched | src/second_brain/runtime.py:1253-1262 | over one chain a failure without a diagnosis or decision, a failure without a success, and a success on its own are always sent back to research |
| Assessment.CompletionExactlyWhen | src/second_brain/assessor.py:227-260 | each completion state by what there is, the number of chains, and the roles on the path or among the primary memories |
| Assessment.ThresholdExactlyWhen | src/second_brain/assessor.py:263-274 | which reason for fresh research is reported, the first that applies, and that one is whenever there is neither a primary memory nor archive context |
| Assessment.ReuseIsSafe | src/second_brain/assessor.py:55-92 | then no memory of the six slots is stale, suspect, contested, archived or flagged |
| Assessment.SuccessOnlyMeansNoPath | src/second_brain/assessor.py:247-257 | "success only" is only ever reported for a packet without a path |
| Assessment.NoIdIsLost | src/second_brain/emission.py:273-289 | for every packet and memory, the selected view holds the memory's record or its entry in the path |
| Assessment.RecordDroppedExactlyWhen | src/second_brain/emission.py:276-287 | the full record is dropped from the view if and only if a branch is selected and the memory is on another one |
| Assessment.UnplacedExactlyWhen | src/second_brain/emission.py:273-298 | a memory stands in neither a slot of the view nor a deferred branch if and only if some branch is selected and its own is numbered past the third |
| Assessment.AllPlacedExactlyWhen | src/second_brain/emission.py:273-298 | every memory stands in one or the other if and only if nothing is selected or the path spans at most three chains |
| Assessment.FourChainsLeaveOneUnplaced | src/second_brain/runtime.py:1115-1161 | four fresh procedures of four chains: reuse is recommended, and of the records of the fourth only its entry in the path is emitted |
| SimHash.ShiftAndMaskDivide | src/second_brain/artifact_identity.py:75-81 | shifting and masking are the quotient and remainder by a power of two |
| SimHash.SimHashBuckets | src/second_brain/artifact_identity.py:75-81 | the rows of a signature are its four bands |
| SimHash.BandsReassemble | src/second_brain/artifact_identity.py:75-81 | the bands are the digits of the signature in base 2^16, so they reassemble it |
| SimHash.CloseSignaturesShareABand | src/second_brain/artifact_identity.py:159-173 | signatures that differ in at most three of 64 bits share a band |
| SimHash.SimHash64 | src/second_brain/artifact_identity.py:59-72 | the loops compute the signature |
| SimHash.SignatureIsMajority | src/second_brain/artifact_identity.py:62-72 | a bit is set if and only if at least half of the shingles have it set in their digests; there are no more than 64 bits |
| SimHash.SignatureIgnoresOrder | src/second_brain/artifact_identity.py:59-72 | the iteration order of the shingle set does not matter |
| ArtifactIdentity.PrefixSuffixOverlap | src/second_brain/artifact_identity.py:92-110 | the loops find the longest common beginning and end and the ratio and flag they give |
| ArtifactIdentity.OverlapMeasures | src/second_brain/artifact_identity.py:107-110 | the ratio times the shorter length is the longer of the common beginning and end; texts of different length are related from 0.6 on |
| ArtifactIdentity.FullOverlapExactlyWhen | src/second_brain/artifact_identity.py:107-110 | the ratio is 1 if and only if one text begins or ends with the other |
| ArtifactIdentity.JaccardMeasures | src/second_brain/artifact_identity.py:84-89 | the similarity of two shingle sets is between 0 and 1, times the union it is the intersection, and it is 1 exactly for equal sets |
| ArtifactIdentity.ShinglesAre | src/second_brain/artifact_identity.py:45-51 | the shingles are exactly the runs of five tokens, or the whole of a shorter text |
| ArtifactIdentity.DecidesExactlyWhen | src/second_brain/artifact_identity.py:190-223 | each verdict by the scores of the candidates: none at 0.6 is unique, else any overlap among them decides, else 0.95 separates duplicates from possible ones |
| ArtifactIdentity.PickBest | src/second_brain/artifact_identity.py:175-188 | the best candidate is the first with the highest positive score; the overlap flag holds if any candidate overlaps |
| ArtifactIdentity.OverlapFlagIsShared | src/second_brain/artifact_identity.py:175-221 | a near-identical candidate that does not overlap is called a duplicate exactly when no other candidate overlaps |
| ArtifactIdentity.OverlapIsUnique | src/second_brain/artifact_identity.py:92-110 | the overlap of two texts is determined |
| ArtifactIdentity.PrintsAgreeExactlyWhen | src/second_brain/artifact_identity.py:54-56 | two fingerprints agree if and only if the formats do and the normalised texts are equal or share their first 1000 characters |
| ArtifactIdentity.SpacedSplits | src/second_brain/artifact_identity.py:40-46 | splitting the normalised text gives back its tokens |
| ArchiveStore.ScoreCandidates | src/second_brain/artifact_identity.py:175-188 | every indexed candidate is scored once |
| ArchiveStore.Classify | src/second_brain/artifact_identity.py:129-223 | a fingerprint match points at the oldest matching archive; otherwise the verdict follows the best candidate |
| ArchiveStore.GrownFileExactlyWhen | src/second_brain/artifact_identity.py:177-223 | a file that properly extends its only candidate is related by overlap if and only if it has a new shingle; growth by repetition makes it a duplicate |
| ArchiveStore.GrownIngestIsRelated | src/second_brain/ingest.py:1103-1115 | an ingest of a proper extension of any candidate's text, with a new shingle and another fingerprint, ends as related by overlap |
| ArchiveStore.Archive.IngestArtifact | src/second_brain/ingest.py:853-935 | an ingest is one step of the store's transition relation: an exact duplicate, or a new row classified and indexed |
| ArchiveStore.Archive.ReprocessArtifact | src/second_brain/ingest.py:1223-1256 | a reprocess that nothing interrupts is a check step, followed by a commit step if the row passes |
| ArchiveStore.Archive.CheckRow | src/second_brain/ingest.py:1212-1256 | the check lets every row pass but a duplicate that points somewhere, and changes no row |
| ArchiveStore.Archive.CommitReprocess | src/second_brain/ingest.py:1371-1386 | the commit reclassifies and reindexes the row whatever has become of it since its check |
| ArchiveStore.Archive.ClassifyAndIndex | src/second_brain/artifact_identity.py:226-275 | the verdict is recorded and the bands rewritten, for originals only |
| ArchiveStore.VerdictPointsAtOriginal | src/second_brain/artifact_identity.py:137-173 | a duplicate verdict points at another archive that is not a duplicate, because only originals are indexed |
| ArchiveStore.StepKeepsInv | src/second_brain/ingest.py:1103-1115 | every step keeps all pointer chains grounded and the index free of duplicates, late halves of overlapping steps included |
| ArchiveStore.PointersAlwaysGrounded | src/second_brain/ingest.py:1374-1386 | over every run, following canonical pointers ends at an archive that is not a duplicate |
| ArchiveStore.NoDuplicateCycle | src/second_brain/ingest.py:1103-1115 | no chain of duplicates returns to its start |
| ArchiveStore.StepKeepsDuplicate | src/second_brain/ingest.py:1223-1256 | a duplicate keeps its state and pointer in every step but a commit on that very archive, and no further reprocess of it passes the check |
| ArchiveStore.DuplicatesArePermanent | src/second_brain/ingest.py:1223-1256 | over every run, a duplicate stays what it is as long as no commit falls on it, whatever overlaps elsewhere |
| ArchiveStore.CommitCanRevive | src/second_brain/ingest.py:1371-1386 | while a reprocess of a duplicate is under way, whatever the other files hold, a commit of any word that is in none of them and whose fingerprint no original carries makes it an original |
| ArchiveStore.CommitCanChange | src/second_brain/ingest.py:1371-1386 | and some commit makes it an original or points it elsewhere even if every fingerprint is carried |
| ArchiveStore.DuplicateIsPermanentExactlyWhen | src/second_brain/ingest.py:1212-1386 | a duplicate is permanent if and only if no reprocess of it that passed the check is still under way |
| ArchiveStore.RevivingRun | src/second_brain/ingest.py:1371-1386 | from the empty store, for any digests: an original is checked twice, its file is rewritten to the word of another archive of its format and the first commit makes it a duplicate, the file is restored and the second makes it an original again |
| ArchiveStore.ExactDuplicatesArePermanent | src/second_brain/ingest.py:1223-1256 | over every run from the empty store an exact duplicate is one forever, whatever overlaps |
| ArchiveStore.ContentsAreStoredOnce | src/second_brain/ingest.py:853-953 | over every run, whatever overlaps, no two archives hold the same content |
| ArchiveStore.OneOriginalCoversIt | src/second_brain/artifact_identity.py:136-157 | at any point of any run at most one original of a format covers a given beginning, the empty one included |
| ArchiveStore.CoveredIngestIsDuplicate | src/second_brain/artifact_identity.py:136-157 | over every run, a new file that agrees with an original on format and covered beginning becomes its canonical duplicate, for good |
| ArchiveStore.IndexStaysComplete | src/second_brain/artifact_identity.py:226-246 | at any point of any run every classified original is found under all bands of its text |
| ArchiveStore.CloseOriginalsAreCandidates | src/second_brain/artifact_identity.py:159-173 | so an original whose signature is within three bits of a new text's is among that text's candidates |
| OverlapFlag.OverlapFlagExample | src/second_brain/artifact_identity.py:129-223 | two runs from the empty store, for all digests under which the third text shares a band: a shifted copy is a duplicate, and after an ingest of a text with the same end both are candidates and it is only overlap-related |
| OverlapFlag.EqualDigestsShare | src/second_brain/artifact_identity.py:59-81 | there are such digests |
| ChainDiverseTopK.ChainCap | src/second_brain/reranker.py:307 | the cap is the least number that is at least the minimum and at least a third of top k |
| ChainDiverseTopK.ApplyTopK | src/second_brain/reranker.py:296-322 | the two-phase loop computes the functional selection, nothing for a non-positive k; whenever top k items can be chosen with every chain within the minimum or a third of top k rounded up, the result has top k items and keeps every chain within that |
| ChainDiverseTopK.SelectionIsFull | src/second_brain/reranker.py:303-322 | exactly min(k, n) distinct items, phase one's first |
| ChainDiverseTopK.PhaseOneIsFeasible | src/second_brain/reranker.py:303-316 | phase one respects the size and every chain cap |
| ChainDiverseTopK.PhaseOneDominates | src/second_brain/reranker.py:303-316 | in every prefix of the ranking phase one holds at least as many items as any feasible selection |
| ChainDiverseTopK.PickByPick | src/second_brain/reranker.py:303-316 | so its p-th pick ranks and scores no lower than the p-th item of any feasible selection |
| ChainDiverseTopK.PassedOverMeansFull | src/second_brain/reranker.py:307-312 | an item passed over while there was room belongs to a chain at its cap |
| ChainDiverseTopK.BackfillIsBest | src/second_brain/reranker.py:317-321 | an over-cap item is kept only if phase one fell short, and with every deferred item ranked above it |
| Scheduler.StepKeepsInv | src/second_brain/daemon.py:51-180 | every action of every thread keeps locks and entries matched to executions |
| Scheduler.MutualExclusion | src/second_brain/daemon.py:56-136 | in every interleaving at most one execution is inside a job's body |
| Scheduler.NeverBlocked | src/second_brain/daemon.py:56-136 | at any point of any interleaving every execution that has its lock and is not done has a next action of its own |
| Scheduler.ReleaseIsMatched | src/second_brain/daemon.py:56-90 | a lock is given back only by the execution it was taken for |
| Scheduler.QuiescentIsClean | src/second_brain/daemon.py:56-180 | when all executions are done, no lock is held and both maps are empty |
| Scheduler.InvisibleWorker | src/second_brain/daemon.py:87-103 | a run in which a registered worker that holds its lock is not in `_running` |
| Scheduler.HiddenExactlyWhenStraggler | src/second_brain/daemon.py:56-103 | some next action hides a visible worker if and only if an execution of its job stands between release and pop |
| Scheduler.VisibleUntilRelease | src/second_brain/daemon.py:182-187 | without such an execution a worker stays visible until it gives back its lock, whatever the threads do |
| Cron.NextAfter | src/second_brain/daemon_jobs.py:69-76 | the least minute after the base, within the search window, at which all five fields match |
| Cron.NextIsUnique | src/second_brain/daemon_jobs.py:69-76 | there is only one such answer |
| Cron.NextFailsExactlyWhen | src/second_brain/daemon_jobs.py:69-76 | there is none if and only if no minute of the next 370 days matches |
| Cron.ListMatchesExactlyWhen | src/second_brain/daemon_jobs.py:45-46 | a list matches if and only if one of its parts does |
| Cron.WeekdayNumberExactlyWhen | src/second_brain/daemon_jobs.py:32-48 | a number in the weekday field selects that weekday, Sunday being 0; with a 7 the schedule never fires |
| Cron.WeekdaysCycle | src/second_brain/daemon_jobs.py:32-35 | weekdays move on by one a day and are anchored at a known date |
| Cron.DailyFiresWithinADay | src/second_brain/daemon_jobs.py:38-76 | a schedule with free day, month and weekday finds its minute within a day, within an hour when the hour is free, and fails exactly when a field can never match |
| Cron.DefaultsAlwaysFire | src/second_brain/daemon_jobs.py:11-29 | all default schedules are of that kind |
| Cron.WeekdayStepReadsTheDay | src/second_brain/daemon_jobs.py:38-67 | a step in the weekday field selects the weekdays it names if and only if it is 1, because it tests the day of the month |
| Cron.JobRegistry.Register | src/second_brain/daemon_jobs.py:92-101 | a job is added with the next minute of its schedule, or refused when there is none; the other entries stay |
| Cron.JobRegistry.DueJobs | src/second_brain/daemon_jobs.py:109-116 | the call fails if and only if an overdue entry has no next minute, and then the jobs before the first such entry were advanced although none is returned; otherwise every overdue job is returned once, in order, and every next slot lies in the future |
| Cron.OverdueOnce | src/second_brain/daemon_jobs.py:109-116 | the overdue list holds exactly the due names, each once |
| Cron.SlotsMatch | src/second_brain/daemon_jobs.py:92-116 | every slot of a registry is a minute that matches its schedule |
| Cron.SecondCallIsIdle | src/second_brain/daemon_jobs.py:109-116 | of two successful calls at one instant the second returns nothing and changes nothing, however many slots were missed before the first |
| Cron.AlwaysFiringIsNeverStuck | src/second_brain/daemon_jobs.py:11-29 | with schedules like the defaults the call never fails |
| Cron.LeapDayGetsStuck | src/second_brain/daemon_jobs.py:69-76 | a 29 February schedule registered within the search window before a leap day is due on it and then has no next minute |
| Cron.LeapDay2024 | src/second_brain/daemon_jobs.py:92-116 | the case of 2024 with its dates |
| ExtractionQueue.Queue.RetryFailed | src/second_brain/jobs.py:726-871 | every row is judged on the state before the job wrote; a live run rewrites exactly the planned rows, a dry run none, and both report the same figures |
| ExtractionQueue.SelectErrors | src/second_brain/jobs.py:742-767 | the pass over failed rows sorts them into retry, bury and wait |
| ExtractionQueue.FiveRewrites | src/second_brain/jobs.py:810-851 | the five batches of updates fall on different rows, so together they retry every row once |
| ExtractionQueue.RunIsRowwise | src/second_brain/jobs.py:810-851 | every row evolves on its own |
| ExtractionQueue.TombstonesStay | src/second_brain/daemon.py:390-450 | a tombstoned row never changes under retry, startup, shutdown, reaping, revisiting or claiming, nor under the reports of other rows |
| ExtractionQueue.TombstoneStaysExactlyWhen | src/second_brain/extraction/queue.py:295-363 | over a run without an operator or new intake a tombstoned row stays tombstoned if and only if no report arrives that ends it otherwise |
| ExtractionQueue.TombstonedForExactlyWhen | src/second_brain/extraction/queue.py:236-363 | a tombstoned row stays tombstoned over everything that can follow by itself if and only if none of its workers still owes a report |
| ExtractionQueue.LateReportRevives | src/second_brain/extraction/_subprocess_entry.py:84-110 | a worker that outlives a restart turns a tombstone into a processed row, or into a failure that the next retry requeues |
| ExtractionQueue.TimeoutTriesBackOff | src/second_brain/jobs.py:716-767 | over every run whatsoever no timeout retry comes before its full delay, at a smaller attempt count than the last, or from the cap on |
| ExtractionQueue.TimeoutTriesAreBounded | src/second_brain/jobs.py:716-767 | there are at most four timeout retries for each report a claim may bring, however late the reports are |
| ExtractionQueue.TriesInTimeAreSpread | src/second_brain/jobs.py:716-767 | when every report finds its row in flight, timeout retries come at strictly increasing attempt counts, at most four in all |
| ExtractionQueue.LateTimeoutRepeatsACount | src/second_brain/extraction/queue.py:353-363 | otherwise two can come at the same count, as a run of two workers shows |
| ExtractionQueue.TimeoutRetryExactlyWhen | src/second_brain/jobs.py:716-767 | a timed-out row is tried again if and only if it was tried fewer than five times and its doubling delay is over, and buried if and only if it was tried five times; the cap of a day never applies |
| ExtractionQueue.OtherFailuresRetryAtOnce | src/second_brain/jobs.py:742-767 | any other failure is tried again by the next retry job, a tombstone never |
| ExtractionQueue.TimesOutToTheEnd | src/second_brain/jobs.py:716-767 | a row that always times out stands where its number of retries says and has waited at least the backoff of each |
| ExtractionQueue.TimeoutTombstone | src/second_brain/jobs.py:716-767 | a tombstone after nothing but timeouts means four retries and at least 900 minutes of waiting |
| ExtractionQueue.FifthTimeoutIsBuried | src/second_brain/jobs.py:757-762 | the next retry job buries such a timed-out row, whenever it runs, if and only if four retries are behind it |
| ExtractionQueue.LiveWorkerIsLeft | src/second_brain/jobs.py:775-781 | a worker within its time limit is never taken for dead |
| ExtractionQueue.DeadWorkerIsTaken | src/second_brain/jobs.py:782-842 | one half an hour over it, and over 150 minutes, always is: its row goes back to waiting after the first and second attempt and is tombstoned after the third |
| ExtractionQueue.DyingWorkerIsGivenUp | src/second_brain/jobs.py:829-842 | over every run in which the row's workers never report and are met stale, it has at most three attempts and is tombstoned after the third only |
| ExtractionQueue.SilentAttemptsAreBounded | src/second_brain/jobs.py:794-850 | a row that is claimed and given back without a word is tombstoned after ten rounds and not before |
| ExtractionQueue.ReapExactlyWhen | src/second_brain/extraction/queue.py:262-289 | the reaper takes exactly the rows in flight that were started long enough ago, or never |
| ExtractionQueue.IntakeExactlyWhen | src/second_brain/extraction/queue.py:15-58 | queueing a source again leaves a worker in flight and an unchanged result alone and puts everything else back to waiting |
| ExtractionQueue.ManualRetryRevives | src/second_brain/cli.py:1175-1227 | an operator's retry revives failed rows only, tombstoned ones by number or on demand, and keeps the attempt count |
| ExtractionQueue.ManualRetryIsOneAttempt | src/second_brain/cli.py:1190-1196 | so after five timeouts it gives a single attempt, and after ten attempts none unless the row is claimed before the next retry job |
| ExtractionQueue.RetriedRow | src/second_brain/jobs.py:810-822 | retrying keeps what a row revisits and revives exactly the rows it requeues |
| ExtractionQueue.RevisitExactlyWhen | src/second_brain/maintenance.py:1329-1380 | a revisit adds a fresh row if and only if the source is an original that other versions processed long enough ago and each earlier revisit of it failed or was skipped |
| ExtractionQueue.RevisitKeepsOne | src/second_brain/maintenance.py:1329-1380 | by itself it never gives a source a second live revisit |
| ExtractionQueue.DoubleRevisitExactlyWhen | src/second_brain/maintenance.py:1313-1398 | a revisit and the next retry give two live revisits of a source if and only if an earlier one has failed and is due |
| RecallMerge.RecallCandidate.Absorb | src/second_brain/recall.py:405-445 | what an entry takes over from a later candidate of its id |
| RecallMerge.MergeWikiCandidates | src/second_brain/recall.py:392-445 | the result is new objects holding the merge of the inputs; no input is changed |
| RecallMerge.MergedIds | src/second_brain/recall.py:392-404 | the ids are those of the input, each once, in first-occurrence order |
| RecallMerge.NothingIsLost | src/second_brain/recall.py:405-445 | every candidate's channels, relations and seeds are in the merged entry of its id |
| RecallMerge.MergedIsFold | src/second_brain/recall.py:392-445 | every entry is all candidates of its id combined in input order |
| RecallMerge.MergedFields | src/second_brain/recall.py:405-445 | each optional text, date, rank and score of an entry is the first present among the candidates of its id |
| RecallMerge.FoldAddsNothing | src/second_brain/recall.py:405-445 | what is fixed comes from the first candidate, and channels, relations and seeds only from candidates of the id |
| RecallMerge.CombineAssociative | src/second_brain/recall.py:405-445 | combining three candidates of an id does not depend on the grouping |
| RecallMerge.MergeIsHomomorphism | src/second_brain/recall.py:392-445 | merging two merged lists equals merging the raw ones |
| RecallMerge.TwoStageRecall | src/second_brain/recall.py:459-471 | so the two-stage merge of a recall agrees with the one-stage one |
| ActiveFile.SplitSections | src/second_brain/ops.py:67-86 | the loop yields, for every heading, the stripped lines below its last occurrence |
| ActiveFile.HeadingExactlyWhen | src/second_brain/ops.py:67-86 | a line is a heading if and only if it is two number signs, white space and something more |
| ActiveFile.Vault.RefreshActive | src/second_brain/ops.py:308-364 | the new file is the printed form of what is kept of the old one |
| ActiveFile.KeptIsValue | src/second_brain/ops.py:320-324 | whatever the file held, a kept section is stripped, not empty, and only its first line can be a heading |
| ActiveFile.RoundTripExactlyWhen | src/second_brain/ops.py:67-92 | parsing the printed file gives back both manual sections if and only if neither begins with a heading line |
| ActiveFile.RefreshKeepsExactlyWhen | src/second_brain/ops.py:308-364 | one refresh keeps both manual sections of any prior file under exactly that condition |
| ActiveFile.RefreshesKeep | src/second_brain/ops.py:308-364 | and then any number of refreshes does |
| ActiveFile.IndentedHeadingIsLost | src/second_brain/ops.py:67-86 | a section that is one indented heading line is lost at the next refresh |
| ActiveFile.ProgramsSectionsAreRefreshable | src/second_brain/ops.py:332-360 | the six headings the program writes are no obstacle; only a rendered line that is a heading of a manual section's name would be |

## Left out

- DecomposeCapped: excludes the caps 0 and -1 for a positive total, because the loop of the original then never ends; `pile_slots` is not modelled.
- CapClusters: requires a maximum size of at least 1, because with a smaller one the slicing of the original never ends once there is a cluster to slice.
- RebuildWiki: entity naming, kinds and edge weights are a table parameter; parse failures, file reading and timestamps are outside the model.
- CompleteTrace: the term and keyword heuristics of the admission test, the request's purpose and the loading of rows are inputs; slots and per-slot limits of the added notes are not modelled.
- Dedupe: requires that no object stands in the packet twice; archive context, warnings and titles are not part of it.
- BuildReservoir: of a branch only its number and its ids are recorded; its terminal state, confidence, defer reason, missing roles, seeds, edges and warning ids are not.
- BuildPath: folding and comparing titles and ids is not modelled; where they stand in string order is an input of each memory.
- Finalize: contradictions, warnings and assembly notes are taken over as they are; requires memories that carry no branch yet.
- Assembly notes that exist before finalizing: in the assembly of a task context they hold only suppression counts and trace notes, so they override none of the notes the assessment reads.
- The intent and the temporality of a query, and the words of failure, success and diagnosis in a text, are inputs.
- Hydration, follow-up and emission profiles, and the exception fallback of `assess_packet`.
- SimHash64: the digest of a shingle is a parameter; text normalisation and the hash itself are not modelled.
- Classify: a fingerprint is the text that is hashed, so SHA-256 is taken to be free of collisions; its version is fixed.
- CommitReprocess: what the file then holds is an input; the file and its suffix, and with it the format, are those of the row.
- The list of stable ids of an emission, which repeats the ids of all slots and branches.
- IngestArtifact: files, manifests, figures and parsing are inputs or left out; two ingests may overlap only at the lookup of an exact duplicate.
- ApplyTopK: scores, relevance gate and `_dynamic_top_k` are given; scores are reals.
- Scheduler: a thread that cannot be started and the pacing of ticks are not modelled; an action is one uninterrupted section of the original.
- Register: where a new name sorts among the names is an input.
- NextAfter: cron text parsing and its errors are not modelled; the calendar is a parameter and minutes are UTC.
- RetryFailed: rows carry the fields the queue logic reads; extraction workers are events that claim a row and report on it at any later time. A worker whose own report is followed by the timeout report of its parent counts as two reports of one claim.
- RevisitExactlyWhen: the order and number of revisits of one run and the context they carry are not modelled.
- MergeWikiCandidates: grouped fields (metadata, scores, dates) are combined field by field; graph provenance, seed scores and archive policy are left out.
- RefreshActive: texts are as read in text mode, with carriage returns already turned into newlines; the six rendered texts and the date are inputs.
- SQLite, FTS, embeddings, sockets, processes, LLM calls, logging, configuration, and all drawing and input handling of the game.
