# SUFFIX_RANK, modelled and proved

SUFFIX_RANK builds the suffix array of a byte string that does not fit in memory. The input gets one
trailing sentinel and is cut into chunks of S positions. Every stage reads and writes one file a chunk:

1. `init` ranks every position by its first k symbols and sorts each chunk into its partial suffix array
   in the order of the whole text.
2. `refine`, `merge` and `update` repeat, doubling the prefix length, until all ranks are unique.
3. `create_pairs` and `invert` turn the final ranks into the suffix array.
4. `verify` checks ranks and suffix array against the input.

The project models each stage as the program runs it and proves the stages together:
`Pipeline.BuildSuffixArray` says that for every non-empty input of bytes up to 253 and every chunk size of at
least 3 the files written are the suffix array of that input, and `Pipeline.BuildAndVerify` that the checker
then accepts them.

## How it is laid out

| file | what it holds |
|---|---|
| `SuffixOrder`, `Arithmetic`, `Chunks` | order of suffixes, division facts, files and the whole they are cut from |
| `MaximalSuffix`, `RangeMatching` | `srank.hpp`: the maximal suffix of a growing prefix, and string range matching on top of it |
| `PartialSort` | pass 3 of `init`: the Z transform and the reverse pass |
| `KmerKeys`, `KmerSeed` | passes 1 and 2 of `init`: rolling keys, choice of k, counting sort, first ranks |
| `RunLength` | (rank, count) records: codec, buffered writer, the run scan |
| `Doubling` | what a rank means, and the doubling step as a theorem about the whole text |
| `JointWalk`, `ChunkStream` | `merge`: the walk over two run streams, and the buffer that input and output share |
| `MergeHeap`, `HeapHeads`, `Resolution`, `MergeOrder`, `Merge` | `merge`: the heap, what it contains, the rank bookkeeping, the order of taking, the whole pass |
| `Refine`, `Update` | the two per-chunk stages around `merge` |
| `Rounds`, `RoundState`, `Driver` | from per-chunk records to the theorem, the loop invariant, the loop |
| `Inversion` | `create_pairs` and `invert` |
| `Checker`, `CheckerSoundness` | `verify`, and what its verdict means |
| `Pipeline` | all stages in a row |
| `TernarySort` | `tsort`, which no stage calls |

Files are sequences that are read and appended in order; buffers that the program changes in place are
arrays, and its mutable records (`KWin`, `Manager` with its per-chunk streams, the writers) are classes.
Ghost arguments such as `t`, `rank` or `Ts` name what the files stand for and are not computed with.
`Status` carries the exit codes.

## What the program asks of its surroundings

- The input is not empty. With no symbol the base of the keys is 1 and the k loop of `src/init.cpp:323`
  does not end; `KmerSeed.KLoopEndsOnInput` states that it ends exactly on the other inputs.
- Chunks hold at least 3 positions. The output buffer of `refine` has room for a third of a chunk
  (`src/refine.cpp:148`, `src/refine.cpp:188`), which is nothing for chunk sizes 1 and 2, and unlike the buffers
  of `init` and `update` it is not rounded up. The command line accepts both sizes. `RunLength.ThirdOfChunkSuffices`
  says exactly when the buffer suffices, and `Pipeline.BuildSuffixArray` has `Overrun` for what happens otherwise:
  on every input that is not refused the first active chunk writes behind the buffer. From 3 to 5 the buffer has
  room for one record, which is enough because no count escapes there.
- The text, sentinel included, has at most 2^40 positions, so that ranks fit the five-byte integers; chunk
  sizes are at most INT_MAX, as `parse_chunk_size` demands.

## Where code and comments differ

- `src/srank.hpp:30` says what a bit of `gt_eof` means when nothing follows A. The caller has text behind A.
  There the bit at a whole copy of A inside B can be wrong, and only there (`RangeMatching.AnswerIsRightWithoutCopy`).
  It is wrong for some bytes behind A unless only 255 stands between the end of the copy and the end of A:
  `RangeMatching.AnswerIsRightForAnyTail` gives this condition on A and B, `RangeMatching.AnswerIsRight` the one
  for a given text behind A, and `RangeMatching.AnswerCanBeWrong` an input. `init` is safe, since such a copy fits
  only at position 0, whose bit it does not read (`PartialSort.GtEofInText`).
- `src/verify.c:13-15` says that the checker verifies that the ranks are a permutation of [0, N). Accepted
  ranks need only be in the right order: `CheckerSoundness.AcceptedRanksPermute` says when they are a
  permutation, and `CheckerSoundness.GapInRanksAccepted` shows an accepted input where they are not. With
  short ranks files even the listed positions can be wrong: `CheckerSoundness.AcceptedListsSuffixes` and
  `CheckerSoundness.ShortFileAccepted`. On files of the shape the pipeline writes the verdict is exact
  (`CheckerSoundness.AcceptedIff`).
- `src/algorithm.h:14-17` says that a chunk reported EMPTY has all its next ranks past the text end. The
  converse does not hold: a chunk whose first next rank falls behind a short last file goes on with whatever
  its buffer held (`Refine.NextRankExists`). The doubling step does not depend on those values.
- `src/merge.c:288` speaks of streams that disagree. Only currents that end before the nexts are noticed, not
  currents that go on: `JointWalk.EncodedDecide` has the exact condition, `JointWalk.WalkExactly` the one for any
  two files of records.
- `src/algorithm.h:84-85` asks the caller of `rankrun_emit` for room for two records. `refine` has room for one
  with chunks of 3 to 5 positions, which does, and for none with 1 or 2, which does not.
- The usage notes that SUFFIX_RANK ships (lines 15 to 20 of its own README) derive the chunk size from the memory
  limit divided by 20; `src/suffixrank.sh:25` divides by 15. The model takes the chunk size as given.

## Model

| member | source | states |
|---|---|---|
| Pipeline.BuildSuffixArray | src/suffixrank.sh:117-241 | for every non-empty input, chunk size up to INT_MAX and merge capacity: any byte above 253 is refused; otherwise chunks of 1 or 2 positions end in an overrun of the buffer of refine, and every larger size in suffixarray files that, read in order, are the suffix array of the input with its sentinel, and ranks files that hold its inverse, after a number of rounds logarithmic in the size of the files, from the largest k whose table fits on |
| Pipeline.BuildAndVerify | src/suffixrank.sh:117-259 | the same outcome, files and k; the verdict is SUCCESS exactly for a run that builds its files, whose checker accepts them, and FAILURE for a refused input or an overrun |
| Pipeline.FirstChunkActive | src/refine.cpp:147-163 | with chunks of 1 or 2 positions and any non-empty input chunk 0 is active in the first round, so the record without room is written |
| Pipeline.SeededLoopState | src/suffixrank.sh:117-154 | the files init leaves satisfy the invariant of the doubling loop at prefix length k |
| Pipeline.BuiltIsAccepted | src/suffixrank.sh:248-259 | the built ranks and suffixarray files meet every condition of both checker phases |
| SuffixOrder.CommonPrefix | src/srank.hpp:41-47 | the longest match and the symbol behind it decide the order of two suffixes, a suffix that ends first being smaller |
| MaximalSuffix.SrankNext | src/srank.hpp:17-28 | from the state of the first length-1 symbols to that of the first length: s starts the maximal suffix, p is its smallest period, r its length modulo p; length 1 resets whatever came before; the loop ends after at most 1 + (rise of s) iterations although i moves back |
| MaximalSuffix.AfterBorder | src/srank.hpp:22-25 | after any border of a self-maximal string comes a symbol at least as large as the one the period predicts, which is why one comparison with text[s+r] decides |
| MaximalSuffix.LargerSymbolMovesMaximum | src/srank.hpp:24-24 | when the new symbol is larger, every start before the remainder of the last period loses to that remainder |
| MaximalSuffix.ScanRestart | src/srank.hpp:24-24 | the larger-symbol branch moves s strictly up and leaves a right state for one symbol |
| MaximalSuffix.ScanSmaller | src/srank.hpp:23-23 | after a smaller symbol the whole candidate is its own smallest period |
| MaximalSuffix.ScanEqual | src/srank.hpp:25-25 | after the predicted symbol the period is kept and stays smallest, and r counts modulo p |
| RangeMatching.MaximalStartsEarly | src/srank.hpp:58-58 | a period of the whole prefix pulls the start of its maximal suffix below that period |
| RangeMatching.PeriodicPrefix | src/srank.hpp:58-58 | when the test succeeds p is the smallest period of the whole matched prefix, not only of its maximal suffix |
| RangeMatching.NoShortPeriod | src/srank.hpp:58-67 | if some k up to a third of the match is a period of it, the test succeeds; so when it fails there is none |
| RangeMatching.PrefixKeepsSmallestPeriod | src/srank.hpp:58-61 | a prefix of a self-maximal string that still holds its smallest period has no smaller one |
| RangeMatching.PeriodicShift | src/srank.hpp:58-61 | after el -= p the same s, p and r are the right state of the shorter prefix |
| RangeMatching.SkipCopies | src/srank.hpp:59-66 | inside a skip the order at i+k equals the order at j+k, j+k lies before i, and neither place holds a whole copy of the pattern |
| RangeMatching.TestPeriodic | src/srank.hpp:58-58 | the memcmp test is the periodicity condition |
| RangeMatching.GtEofOutcome | src/srank.hpp:44-47 | the three-way test after a maximal match is the answer for that position |
| RangeMatching.AnswerIsRight | src/srank.hpp:30-47 | the exact condition: the answer is the order in B A tail if and only if what follows a whole copy of A at i is above the tail; with no tail it always is |
| RangeMatching.AnswerIsRightWithoutCopy | src/srank.hpp:44-47 | before the call, on A and B alone: where A does not stand whole in B at i, so that the branch el == A_length is not taken, the answer is right whatever follows A |
| RangeMatching.AnswerIsRightForAnyTail | src/srank.hpp:44-47 | exactly, for byte strings A and B: right whatever bytes follow A if and only if A does not stand whole in B at i, or every byte from the end of that copy to the end of A is 255 |
| RangeMatching.WrongTail | src/srank.hpp:44-47 | for every other whole copy, bytes behind A for which the bit is set although the suffix is not above |
| RangeMatching.MatchOn | src/srank.hpp:41-42 | the inner loop of both matchers extends the match as far as it goes and keeps the state of the matched prefix right |
| RangeMatching.AnswerCanBeWrong | src/srank.hpp:44-47 | a three-symbol text in which a whole copy of A is answered wrongly |
| RangeMatching.CopiedBit | src/srank.hpp:59-66 | a copied bit is the answer of the place it is copied to |
| RangeMatching.CopyBits | src/srank.hpp:59-66 | the copy loops extend the right bits to the end of the skip and touch nothing behind it |
| RangeMatching.SkipAhead | src/srank.hpp:58-67 | both skip branches keep all bits right and leave a right matcher state; 3i + el rises strictly |
| RangeMatching.ComputeGtEof | src/srank.hpp:33-69 | every bit is the answer of its position, set or copied, whatever follows A; outer iterations plus matched symbols stay within 3 times the length of B plus 2 times that of A, and all work including copies and memcmp within 13 and 6 times |
| RangeMatching.HeadOutcome | src/srank.hpp:83-86 | after a maximal match inside T the next symbol decides, and a suffix that ends is below |
| RangeMatching.CopiedHeadBit | src/srank.hpp:98-112 | a copied gt_head bit is right at the place it is copied to |
| RangeMatching.CopyHeadBits | src/srank.hpp:98-111 | the copy loops of the second matcher extend the right bits and the rank counter to the end of the skip |
| RangeMatching.SkipAheadInHead | src/srank.hpp:97-114 | the skip branches of the second matcher keep bits and the rank counter together |
| RangeMatching.CountBelowWhole | src/srank.hpp:73-76 | suffixes below and above the whole string partition the proper suffixes |
| RangeMatching.ComputeNewGtHead | src/srank.hpp:74-118 | bit n-1-i says whether T[i..] is above T for every 0 <= i < n, nothing behind these bits changes, the result is the number of suffixes below T, and the work is linear |
| Chunks.DropKeepsOrder | src/init.cpp:412-417 | dropping the text before a chunk keeps the order of the suffixes behind |
| Chunks.HoldsIsFlat | src/suffixrank.sh:127-127 | chunk files of the pipeline shape are exactly the whole cut up: reading them in order gives it back |
| PartialSort.TransformedSymbolDecides | src/init.cpp:433-441 | two different rewritten symbols already decide the order of the suffixes in the whole text |
| PartialSort.TransformedOrder | src/init.cpp:433-441 | plain suffix order of the rewritten chunk equals the order of those positions in the whole text, for every pair of positions |
| PartialSort.ZTransform | src/init.cpp:434-441 | the in-place loop with its byte cast rewrites exactly the symbols the transform raises |
| PartialSort.GtEofInText | src/init.cpp:428-431 | gt_eof from the raw next chunk is right for the whole text at every position but 0, which is never read |
| PartialSort.GtHeadInText | src/init.cpp:453-459 | gt_head computed on the rewritten chunk is gt_head of the whole text |
| PartialSort.TransformChunk | src/init.cpp:419-451 | one chunk after its successor: the buffer ends up ordered like the text |
| PartialSort.SeedChunk | src/init.cpp:412-521 | one iteration leaves the true partial suffix array, a gt_head right for the whole text, and the run-length form of the ranks in that order |
| PartialSort.RunPass3 | src/init.cpp:385-541 | by reverse induction every chunk gets its true partial suffix array in whole-text order, its currents stream and its full window |
| RunLength.RankrunEmit | src/algorithm.h:86-97 | a run takes one record, or two when its count is 255 or more |
| RunLength.StoreKeepsLowBytes | src/utils.h:54-58 | a store keeps the low five bytes, and the value itself exactly below 2^40 |
| RunLength.RecordsOfRun | src/algorithm.h:36-41 | one record up to a count of 254; from 255 on a pair, the first with count byte 255, the second with the count in its rank field and count byte 0 |
| RunLength.RecordsFitBytes | src/algorithm.h:64-82 | every record of every file has a rank below 2^40 and a count that fits a byte |
| RunLength.DecodeReads | src/merge.c:251-269 | read to the end, any file of records gives the runs it spells, and its end is told from a pair that is cut off |
| RunLength.EncodedSpells | src/merge.c:251-269 | an encoded list spells itself and is not cut; one more first record of a pair cuts it |
| RunLength.DecodeEncode | src/merge.c:251-269 | decoding the records of a run gives the run back and stops at what follows |
| RunLength.DecodeEncodeExactly | src/algorithm.h:35-42 | the round trip holds if and only if rank and count are below 2^40; counts 0, 254 and 255 are no exception |
| RunLength.RunWriter.Emit | src/refine.cpp:44-55 | flushed plus pending records are the encoding of all runs so far; an escape pair is never cut by a flush |
| RunLength.RunsOfExpands | src/refine.cpp:147-166 | the scanned runs spell the scanned sequence |
| RunLength.RunsOfMaximal | src/refine.cpp:143-146 | neighbouring runs differ and no run is empty |
| RunLength.MaximalFormUnique | src/refine.cpp:143-146 | no two lists of maximal runs spell the same sequence, so the scan finds the only one |
| RunLength.ThirdOfChunkSuffices | src/refine.cpp:148-163 | a buffer of a third of a chunk has room for every scan of a chunk if and only if the chunk has at least 3 positions |
| RunLength.EmitRunsOf | src/refine.cpp:147-166 | the file is the encoded maximal-run form of the table read in list order; a record without room is found exactly when some run does not fit the empty buffer |
| Doubling.PrefixSplit | src/suffixrank.sh:156-216 | 2L symbols compare by the first L and, on a tie, by the L behind them |
| Doubling.TieEndsBeforeSentinel | src/init.cpp:90-93 | two different positions can only tie in symbols before the unique sentinel |
| Doubling.RankOrder | src/suffixrank.sh:156-216 | ranks compare exactly as the L-symbol prefixes do, with equality for ties |
| Doubling.DoublingStep | src/merge.c:321-364 | current rank plus the live positions of the same rank with a smaller next rank is the rank at 2L, and a pair that occurs once is a unique 2L-prefix, whatever stands in next ranks past the text end |
| Doubling.PairsDecideRank | src/merge.c:338-363 | a smaller pair (current, next) means a smaller 2L-rank |
| Doubling.UniqueRankIsFinal | src/update.c:23-25 | a position whose prefix is unique, such as one no longer listed, keeps its rank for good |
| Doubling.PairsFollowSuffixOrder | src/refine.cpp:143-146 | along the suffix order the pairs (current, next) never fall |
| Doubling.UniqueRanksAreSuffixRanks | src/suffixrank.sh:156-216 | when its prefix is unique, the rank of a position is the number of smaller suffixes |
| Doubling.SuffixRanksOrder | src/suffixrank.sh:156-241 | final ranks order positions as their suffixes, differ, and stay below the text length |
| JointWalk.WalkEnds | src/merge.c:275-304 | every pair of streams, well formed or not, yields some list of triplets and then ends or fails |
| JointWalk.StreamsYield | src/merge.c:58-66 | so the result about merge_runs applies to every family of streams whose triplets are sorted |
| JointWalk.WalkExactly | src/merge.c:275-304 | for any two files of records, wherever the cursor stands: the triplets are the joint refinement of the runs the files spell, and the walk fails if and only if the nexts file is cut off or the currents do not reach as far (fewer entries, or as many entries and fewer empty runs behind them) |
| JointWalk.FilesDecide | src/merge.c:275-304 | so triplets and outcome of a chunk are determined by its two files |
| JointWalk.EncodedDecide | src/merge.c:262-290 | on encoded lists with positive nexts: failure if and only if the nexts file ends in half a pair or has more entries than the currents |
| JointWalk.WalkJoinsRuns | src/merge.c:275-304 | encoded run lists whose nexts have no more entries than their currents yield exactly their joint refinement and then end |
| JointWalk.JoinRunsZips | src/merge.c:271-304 | the triplets spell the zip of the two expanded sequences, as far as both reach, so the totals are conserved |
| JointWalk.JoinRunsMaximal | src/merge.c:271-304 | neighbouring triplets differ when both inputs are maximal runs |
| ChunkStreams.ChunkStream.constructor | src/merge.c:501-517 | a fresh stream has everything ahead and nothing put |
| ChunkStreams.ChunkStream.PutCurrent | src/merge.c:18-33 | putting a record appends it to the logical output and leaves the unread input as it was, flushing first when the next slot is not free |
| ChunkStreams.ChunkStream.WriteOutput | src/merge.c:38-45 | one logical run is appended in encoded form, whether or not a flush falls between its two records |
| ChunkStreams.ChunkStream.FlushOutput | src/merge.c:438-444 | the pending front of the buffer goes to the output file |
| ChunkStreams.ChunkStream.RefillNexts | src/merge.c:386-412 | the refill loses neither pending output nor input and reports EMPTY exactly at the end |
| ChunkStreams.ChunkStream.RefillCurrents | src/merge.c:415-436 | the same for the read-only stream |
| ChunkStreams.ChunkStream.GetNextsRecord | src/merge.c:222-245 | the record read is the next of the logical input, across refills |
| ChunkStreams.ChunkStream.DecodeNexts | src/merge.c:251-269 | the decoded run is that of the logical input even when an escape pair straddles a refill; a missing second record is FAILURE |
| ChunkStreams.ChunkStream.NextTriplet | src/merge.c:275-304 | over buffers cut anywhere the triplet and the status are those of the walk over private unbounded streams |
| ChunkStreams.ReadsAfterWrite | src/merge.c:9-17 | writing below the read cursor leaves everything still to be read |
| ChunkStreams.OverlayReadOn | src/merge.c:9-17 | reading on only frees slots: the pending output stays in place |
| MergeHeap.CompareIsOrder | src/merge.c:47-55 | smaller means a smaller current rank, or then a smaller next rank, or then a smaller chunk; the order is total and transitive, and only elements of one chunk with equal ranks tie |
| MergeHeap.TopIsMinimum | src/merge.c:72-73 | the root of a heap is below every element |
| MergeHeap.SiftDownStep | src/merge.c:154-165 | moving the smaller child up keeps the heap around the hole |
| MergeHeap.SiftUpStep | src/merge.c:207-215 | moving the parent down keeps the heap around the hole |
| HeapHeads.TopIsSmallest | src/merge.c:73-73 | the root is the smallest triplet not taken yet of any chunk |
| HeapHeads.HeadsAdvance | src/merge.c:84-90 | taking the root and feeding its chunk leaves exactly one element for every chunk that has one left |
| Merge.Manager.ReplaceTop | src/merge.c:149-167 | order is restored and the contents are the old ones without the root plus the new element |
| Merge.Manager.PopTop | src/merge.c:171-193 | order is restored and exactly the root is gone |
| Merge.Manager.SiftUp | src/merge.c:207-216 | the hole at the end rises until the element fits, contents otherwise unchanged |
| Merge.Manager.InsertIntoHeap | src/merge.c:195-218 | order is kept and exactly the element is added; FAILURE exactly when the heap is full, and then nothing changes |
| Resolution.BookStep | src/merge.c:338-363 | the three cases keep updated_rank and pair_count equal to their meaning over all triplets taken |
| Resolution.ResolveComplete | src/merge.c:348-358 | once no triplet ahead has the pair, the two counters give its final record |
| Resolution.ResolveOpen | src/merge.c:339-342 | while one ahead still has the pair, the record keeps its count |
| Resolution.TotalSplit | src/merge.c:321-379 | what was taken and what is ahead add up to the family |
| Merge.Manager.HeapToOutput | src/merge.c:321-364 | the result is the record that the whole family prescribes for the triplet before, known only now; the first call gives none |
| Merge.Manager.HeapToOutputLast | src/merge.c:366-379 | the last triplet gets the record the family prescribes |
| Merge.Manager.GetNextRun | src/merge.c:307-316 | the next triplet of one chunk, EMPTY at its end, FAILURE when its streams disagree |
| Merge.Manager.TakeTop | src/merge.c:73-90 | the smallest triplet is taken, its chunk advances and no other stream changes |
| Merge.Manager.Deliver | src/merge.c:92-103 | the record of the waiting triplet goes to its own chunk, and the last one when the heap has run empty |
| Merge.Manager.InitMerge | src/merge.c:116-144 | every chunk with a triplet is in the heap once; fails on an empty family or a malformed stream |
| MergeOrder.TopIsFirst | src/merge.c:73-73 | the triplet peeked comes before everything not yet taken in all chunks, ties between chunks included |
| MergeOrder.PoppedNext | src/merge.c:72-104 | one iteration keeps the triplets taken in order, those of each chunk in its own order, and nothing not yet taken belongs before any of them |
| MergeOrder.TakenIsUnion | src/merge.c:72-104 | a sequence that holds the triplets of each chunk in its own order and no others is their multiset union |
| Merge.Manager.RunPass | src/merge.c:69-104 | the main loop takes every triplet once, sorted by current, next and chunk, and hands each chunk its resolved records; it fails only on a malformed stream |
| Merge.Manager.MergeRuns | src/merge.c:58-114 | succeeds if and only if some nexts file has a record, no nexts file is cut off and no currents file is too short for its nexts; then the triplets taken are the multiset union of all streams, sorted by current, next and chunk, and global_<id> is the encoding of the resolved record of every triplet of that chunk in its order: rank = current + count of equal current and smaller next over all chunks, count 0 exactly for a pair of total count 1 |
| Merge.FamilyDecides | src/merge.c:58-66 | which families of files can be merged, from the records in them |
| Driver.RunMerge | src/merge.c:475-533 | the same exact success condition and the same output for files opened at any capacity |
| Refine.NextRankPlace | src/algorithm.h:7-33 | the place computed is L positions on, for every prefix length and chunk size, with the spill into the next chunk |
| Refine.EmptyChunkPastEnd | src/algorithm.h:14-17 | a chunk reported EMPTY has no next rank inside the text |
| Refine.NextRankExists | src/algorithm.h:25-33 | exactly which chunks have a next rank inside the text |
| Refine.ReadWindow | src/refine.cpp:90-132 | from one file or two, aligned or not, exactly the window entries that the files reach are replaced |
| Refine.LoadWindow | src/refine.cpp:90-133 | the buffer afterwards: every window position with a next rank inside the text has it, from one file or two, and every other entry keeps what was there |
| Refine.GenerateLocalRuns | src/refine.cpp:57-170 | the buffer afterwards, and the nexts file as the encoded maximal-run form of it in list order; the output buffer is overrun exactly when the chunk is active and has fewer than 3 positions |
| Refine.NextRankInFile | src/algorithm.h:7-33 | the next rank of a position is inside the text if and only if its place exists in the file located or the one behind, and stands there |
| Refine.NothingToLoad | src/refine.cpp:68-74 | loading the window of a chunk reported EMPTY would change nothing |
| Refine.SharedZero | src/refine.cpp:186-204 | where no chunk so far had a next rank the shared buffer still holds the 0 it was allocated with |
| Refine.SharedEntry | src/refine.cpp:186-204 | everywhere else it holds the next rank of the last chunk that had one there |
| Refine.RefineAll | src/refine.cpp:186-204 | all chunks through one shared buffer whose contents each time are those of SharedBuffer, so every nexts file is determined by ranks, lists and windows; EMPTY exactly when no chunk is active, overrun exactly when one is and chunks have fewer than 3 positions |
| Update.ApplyRecord | src/update.c:89-105 | one record writes its rank to its entries and drops or keeps them |
| Update.ApplyRecords | src/update.c:79-113 | ranks, compacted list, window and currents stream after all records |
| Update.WindowSliceSuffices | src/update.c:119-126 | writing the window slice back equals writing the whole file |
| Update.UpdateLocalRanks | src/update.c:5-146 | exactly the listed positions change rank, the new list is the stable subsequence of survivors, the window is exactly their range or empty, the currents stream holds the surviving records; FAILURE exactly when the counts fall short of the list or exceed it, and then ranks, list and window stay |
| Update.RecordsFitBuffer | src/update.c:169-175 | the buffer that takes all records of a chunk is large enough whenever the counts do not exceed the chunk size |
| Driver.UpdateAll | src/update.c:190-203 | the same for all chunks; FAILURE exactly when the records of some chunk do not cover its list |
| Rounds.CountIsGroup | src/merge.c:321-364 | counts over the triplets of a chunk are sizes of position sets of that chunk |
| Rounds.TotalIsGroup | src/merge.c:321-364 | totals over all chunks are the group sizes of the doubling step |
| Rounds.ChunkFates | src/merge.c:348-358 | the records of a chunk give each of its listed positions its 2L-rank and mark it resolved exactly when its 2L-prefix is unique |
| RoundState.SortedTriplets | src/refine.cpp:143-146 | triplets of a list whose pairs never fall are sorted |
| RoundState.ListsCover | src/suffixrank.sh:159-216 | the lists that take part contain every position with a shared rank |
| RoundState.RoundSetUp | src/refine.cpp:172-204 | after refine every stream yields sorted positive triplets that stand for the true pairs of its list |
| RoundState.SurvivingSpells | src/update.c:67-73 | the surviving records are the run-length form of the new ranks over the new list |
| Rounds.RecordsRise | src/update.c:67-69 | the records of a chunk have strictly rising ranks, so surviving neighbours differ |
| RoundState.CurrentsAreRuns | src/update.c:67-73 | between rounds the currents file is exactly the encoded scan of the current ranks along the list |
| RoundState.ActiveChunkNext | src/update.c:5-146 | an updated chunk meets the loop invariant at 2L |
| RoundState.IdleChunkNext | src/update.c:10-12 | a chunk that took no part meets it unchanged |
| RoundState.IdleChunkUnique | src/algorithm.h:14-17 | a chunk that takes no part has unique ranks only |
| Driver.RoundDone | src/suffixrank.sh:196-207 | the whole state goes from L to 2L |
| Driver.OneRound | src/suffixrank.sh:159-216 | an iteration stops exactly when no chunk is active, and otherwise re-establishes the invariant at 2L |
| Driver.LoopDone | src/suffixrank.sh:159-172 | when no chunk is active every rank is the number of smaller suffixes |
| Driver.DoublingLoop | src/suffixrank.sh:149-216 | the loop ends after a number of rounds logarithmic in the size of the files, with the inverse suffix array in the ranks files; refine overruns its buffer exactly when chunks have fewer than 3 positions and some chunk is active at the start |
| KmerKeys.KeyBound | src/init.cpp:320-325 | keys stay below B^k |
| KmerKeys.KeyRolls | src/init.cpp:116-120 | removing the oldest code and appending the new one gives the key of the next window |
| KmerKeys.KeyOrder | src/init.cpp:85-93 | keys compare as the k-symbol prefixes do, ties included |
| KmerKeys.ChooseK | src/init.cpp:318-327 | the largest k of at least 1 for which B^k fits the budget |
| KmerKeys.KLoopEndsExactly | src/init.cpp:321-326 | the k loop ends if and only if the base is at least 2 or the budget is 0; with base 1 the guard holds after every number of iterations |
| KmerSeed.BaseOfInput | src/init.cpp:311-316 | the base is 1 exactly for the empty input |
| KmerSeed.KLoopEndsOnInput | src/init.cpp:311-326 | for every chunk size the k loop ends if and only if the input is not empty |
| KmerSeed.KWin.Feed | src/init.cpp:116-125 | the key is always that of the zero-padded window of the last k codes, and the reported place is where it starts |
| KmerSeed.ChunkWriter.Append | src/init.cpp:148-156 | a full buffer becomes a chunk file; the files plus the buffer are everything written |
| KmerSeed.AssignCodes | src/init.cpp:282-316 | codes run from 1, keep the order of the used bytes, and the base is one more than the number of byte values used; FAILURE exactly when some byte exceeds 253 |
| KmerSeed.BuildHistogramAndX | src/init.cpp:131-202 | every window of a real position is counted once, and the X files hold the text with its sentinel |
| KmerSeed.SumInPlace | src/init.cpp:348-354 | in place, counts become the number of positions with a smaller key |
| KmerSeed.WriteRanks | src/init.cpp:209-268 | the ranks files hold 1 + that number for every real position and 0 for the sentinel |
| KmerSeed.SeedRankIsRank | src/init.cpp:204-208 | the seeded rank is the number of positions with a smaller k-symbol prefix, sentinel included |
| KmerSeed.RunPasses1And2 | src/init.cpp:271-371 | text files and ranks at prefix length k for every non-empty input, k is the largest for which B^k keys fit a chunk; bytes above 253 give FAILURE and nothing else does |
| KmerSeed.SeedLengthUnique | src/init.cpp:318-327 | only one k meets that condition |
| KmerSeed.TextOrder | src/init.cpp:131-202 | the suffixes of the text, sentinel included, are in the order of those of the input |
| Inversion.CountBuckets | src/create_pairs.c:24-28 | the counts are the bucket sizes |
| Inversion.SumStarts | src/create_pairs.c:30-36 | in place, counts become starts |
| Inversion.ScatterNext | src/create_pairs.c:38-44 | a record goes to the next free slot of its bucket and disturbs no other bucket |
| Inversion.ScatterEnd | src/create_pairs.c:46-54 | afterwards the shifted starts delimit every bucket and the slices are the buckets in order |
| Inversion.CreatePairs | src/create_pairs.c:6-57 | each pairs file grows by exactly its bucket of the chunk |
| Inversion.CreateAllPairs | src/create_pairs.c:78-81 | pairs_<j> is bucket j of the whole text |
| Inversion.BucketIsRight | src/create_pairs.c:38-54 | a bucket lists every position whose rank is in it once, in order, and no other |
| Inversion.BucketFull | src/invert.c:18-22 | every bucket of a permutation is exactly full |
| Inversion.Invert | src/invert.c:16-27 | whatever the array held, the written entries are the stretch of the inverse that belongs to the bucket |
| Inversion.InvertAll | src/invert.c:49-51 | the suffixarray files hold the inverse permutation |
| Inversion.InverseExists | src/invert.c:21-23 | every permutation has an inverse |
| Inversion.SuffixRanksPermute | src/create_pairs.c:24-28 | final ranks are a permutation |
| Inversion.InverseIsSuffixArray | src/invert.c:21-23 | the inverse of the final ranks is the suffix array |
| Inversion.InverseOfSuffixArray | src/verify.c:13-17 | only the true ranks have the suffix array as inverse |
| Inversion.SuffixArrayInverts | src/verify.c:13-17 | only the suffix array is inverse to the true ranks |
| Inversion.InvertRanks | src/suffixrank.sh:221-241 | create_pairs then invert, from final ranks to the suffix array |
| Checker.PartitionFile | src/verify.c:109-152 | the symbols of one ranks file are routed; fails exactly when the stream runs out or a rank has no bucket |
| Checker.PartitionChunk | src/verify.c:87-153 | the same with the peek at the next file, which must not be empty |
| Checker.VerifyPartition | src/verify.c:65-167 | succeeds exactly when the chunk size fits 32 bits, every file after the first has an entry, there are as many ranks as symbols and every rank has a bucket; then the buckets hold the records of their ranks |
| Checker.PlaceRecords | src/verify.c:253-293 | the counting sort succeeds exactly when the records take each slot once; the slot arrays then hold them |
| Checker.CompareEntries | src/verify.c:295-353 | succeeds exactly when every entry is the placed position and every neighbour, carry included, is smaller |
| Checker.CheckBucket | src/verify.c:234-361 | one bucket, with the size check and the carry for the next |
| Checker.VerifyCheck | src/verify.c:215-372 | succeeds exactly when phase B has nothing to object to |
| Checker.KeyOfSymbol | src/verify.c:58-63 | the stored key is 0 for the sentinel and two more than the byte otherwise, fits 32 bits and keeps the order |
| Checker.ReadsFront | src/verify.c:90-92 | at most a chunk of entries is read from a ranks file, and all of a shorter one |
| Checker.Verify | src/verify.c:374-396 | SUCCESS exactly when there is a chunk and both phases accept; a chunk size beyond 32 bits is never accepted |
| CheckerSoundness.LocalOrderIsSuffixOrder | src/verify.c:203-213 | comparisons of first symbols and following ranks decide the order of whole suffixes |
| CheckerSoundness.SuffixOrderIsLocalOrder | src/verify.c:203-213 | the converse for true ranks |
| CheckerSoundness.PlacesFollowRanks | src/verify.c:253-293 | places in the buckets rise with ranks, and no two positions share a rank |
| CheckerSoundness.AcceptedRanksOrderSuffixes | src/verify.c:6-17 | for files of any lengths: accepted ranks order the positions exactly as their suffixes |
| CheckerSoundness.AcceptedListsSuffixes | src/verify.c:6-17 | once accepted, the suffixarray files list every position once in increasing suffix order if and only if every ranks file but the last is full |
| CheckerSoundness.ShortFileAccepted | src/verify.c:146-151 | a text of two symbols with short ranks files that is accepted although a listed position does not exist |
| CheckerSoundness.AcceptedIff | src/verify.c:374-396 | on files of the pipeline shape: accepted if and only if they are the suffix array and its inverse |
| CheckerSoundness.AcceptsTrue | src/verify.c:374-396 | completeness: the true files are accepted |
| CheckerSoundness.AcceptedRanksPermute | src/verify.c:13-15 | once accepted, for files of any lengths: the ranks are a permutation of [0, N) if and only if every suffixarray file has the size of its rank bucket |
| CheckerSoundness.AcceptedFullRanksPermute | src/verify.c:13-15 | with full ranks files that is the case if and only if every suffixarray file but the last is full |
| CheckerSoundness.GapInRanksAccepted | src/verify.c:13-15 | three symbols with the ranks 3, 2, 0 that are accepted |
| TernarySort.InsertionSort | src/utils.c:142-153 | the short case sorts and keeps the entries |
| TernarySort.Med3 | src/utils.h:22-24 | the macro picks one of its three arguments that is their median |
| TernarySort.Pivot | src/utils.c:154-166 | the pivot is the middle key, the median of first, middle and last, or beyond 40 entries the median of the medians of three triples |
| TernarySort.PivotBalances | src/utils.c:159-164 | of the nine keys sampled at least four are not above the pivot and at least four not below it |
| TernarySort.ScanUp | src/utils.c:170-176 | stops at an entry above the pivot, keeping the five regions |
| TernarySort.ScanDown | src/utils.c:177-183 | stops at an entry below the pivot, keeping the five regions |
| TernarySort.Partition | src/utils.c:167-188 | the regions equal, smaller, greater, equal meet and nothing is lost |
| TernarySort.StretchesChangeSides | src/utils.c:189-200 | swapping the shorter stretch with the far end of the longer makes the two change sides |
| TernarySort.JoinEquals | src/utils.c:189-200 | smaller, equal and greater end up contiguous |
| TernarySort.SomeEqual | src/utils.c:154-166 | some entry equals the pivot, so both recursive slices are shorter |
| TernarySort.TSort | src/utils.c:138-203 | for every slice: keys never fall, the entries are the same, nothing outside changes, and the recursion ends |

## Left out

- Pipeline.BuildSuffixArray: does not model what the program does after the overrun with chunks of 1 or 2 positions, because C leaves it undefined; where an allocation of no bytes fails, the program stops there instead.
- PartialSort.DivSufSort: stands for libdivsufsort, which is foreign code; a plain insertion sort with the contract the program relies on, that the result is the suffix array of the byte string.
- Driver.DoublingLoop: does not model the exit codes of the shell script beyond the three statuses, nor its clean-up of directories.
- KmerSeed.RunPasses1And2: does not model the empty input, for which the program does not return.
- Update.UpdateLocalRanks: does not model record files that merge does not write (an escape without a second record, or with a count below 255 in it), nor counts beyond the chunk size, for which the program reads behind its list buffer; nor what a failing update leaves in the currents file, which nothing reads again.
- Driver.UpdateAll: leaves out the same record files.
- Checker.Verify: does not model a suffixarray file whose size is not a multiple of an entry, nor files that cannot be opened.
- Failures of reading, writing, seeking and allocating, paths, directories, descriptor limits, page-cache control and unlinking.
- The packing of bits in `bitvector` and its files: bit vectors are arrays of booleans, saved and loaded unchanged.
- The byte layout of five-byte integers: a natural number with `RunLength.I40` for what a store keeps; other C integers are unbounded, since positions and counts stay below 2^40.
- `src/input_stream.c` and the batches in which files are read: the stream is the text, and a file is read record by record or whole.
- Aliasing of read-only buffers: they are sequences. The per-bucket writers of the checker are sequences too, appended record by record.
- Argument and memory-size parsing, timing, progress messages and the count histogram.
- The split of the memory budget in `setup` of `src/merge.c`: the capacity of the currents buffer is a parameter of at least 1, and the nexts buffer is twice as large.
- The persistence of windows in the `bounds` file: they are passed on as two lists.
