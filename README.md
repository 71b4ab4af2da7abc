# SEAMLeSS alignment planning, dispatch and bookkeeping in Dafny

SEAMLeSS aligns a stack of serial-section electron-microscopy images. It
computes a displacement field for each section against its neighbours and
combines those fields by vector voting. Then it renders every section through
its final field. This project models the part of the system that decides
what runs, in which order, on which sections, and with which data:

- **Block-wise alignment** (`AlignBlocks`, `AlignStitch`, `AlignSchedule`):
  - splitting the z range into blocks;
  - choosing the sections each block starts from;
  - the offsets used to reach earlier sections, and their adjustment;
  - the sections at which neighbouring blocks are stitched together;
  - dispatching the pairwise, vote, compose and render tasks, with the
    queue waits between phases.
- **Serial block alignment** (`OffsetRanges`, `SerialAlignment`) and its
  variant in `new_align_blocks.py` (`NewAlignBlocks`):
  - the within-block offset ranges;
  - the copy, serial and vote phases;
  - the per-section model and parameter lookups compiled from CSV rows
    (`Lookup`).
- **The pairwise field store and its vector vote** (`Pairwise`):
  - where each field pair is stored;
  - which compositions of intermediate fields take part in a vote;
  - how the weights are normalised.
- **The aligner's bookkeeping** (`Aligner`, `AlignerSingle`):
  - cutting a box into chunks;
  - the scale between mip levels;
  - repairing missing image data from backup sections;
  - the warp of a patch and its crop;
  - reading a field stored at mip 8 into a larger request;
  - the copy and render layout of `align_ng_stack`.
- **The task bodies** (`Tasks`): what each task saves and the marker file it
  writes when it completes, and the conversion of serialised arguments.
- **Helpers, the render script, the training data set and the network's
  level bookkeeping** (`Helpers`, `Render`, `StackData`, `Architecture`).

Shared modules:
- `Wrappers`: Option and Result. A Python exception becomes an `Err` value.
- `Slices`: Python slicing, including negative bounds.
- `Partition`: `make_range`. It is defined identically in three scripts and
  is modelled once.
- `Boxes`: the integer extents of a bounding box.
- `Arith`: powers of two and ceiling division.

Modelling choices:
- Fields and images are abstract. A field is a type parameter, and composing
  or voting fields is a function passed in.
- Dispatching a task appends it to a log that a class owns. The methods that
  dispatch are proved against functions that define the whole log.
- The storage that tasks write to is a class with an append-only log of
  writes.
- CloudVolume, the task queue, the GPU, files, clocks and randomness are not
  modelled. Their results are parameters: stored contents, a random
  permutation, which sections are missing.

## Model

| member | source | states |
|---|---|---|
| Partition.FlattenSnoc | inference/align_blocks.py:34-37 | joining the pieces after appending one more piece is the old join followed by that piece |
| Partition.PieceLength | inference/align_blocks.py:27-33 | the length of each piece but the last (`srange`) is at least 1 for a non-empty list |
| Partition.PieceCount | inference/align_blocks.py:27-33 | the number of pieces (`part`) is at most both the list length and `part_num`, and at least 1 for a non-empty list |
| Partition.PiecesFit | inference/align_blocks.py:33-37 | every piece boundary `i * srange` lies within the list |
| Partition.MakeRange | inference/align_blocks.py:26-38 | the pieces join back to the input; there are `min(len, part_num)` of them; each but the last has `len // part` elements and the last at least as many; an empty list gives one empty piece |
| Partition.Chop | inference/align_blocks.py:34-37 | the slicing loop of `make_range` for given `part` and `srange`: the pieces join back to the input, `part` of them, each but the last of length `srange` |
| Partition.LastPiece | inference/align_blocks.py:37 | the last piece `block_range[(part-1)*srange:]` completes the join and is at least `srange` long |
| Lookup.LastCover | inference/new_align_blocks.py:95-110 | a section has no entry exactly when no row covers it |
| Lookup.LastCoverIsLast | inference/new_align_blocks.py:108-110 | a section gets the value of the last row that covers it: later rows override earlier ones |
| Lookup.Compile | inference/new_align_blocks.py:95-110 | the lookup built row by row maps every section to the value of the last row covering it, and lists its keys once each |
| OffsetRanges.SerialShape | inference/serial_block_alignment.py:76 | `serial_range` is `overlap - 2, ..., 0`, descending |
| OffsetRanges.OffsetRangeValues | inference/serial_block_alignment.py:73-77 | `copy_range == [overlap - 1]`, `serial_range == [overlap - 2, ..., 0]` and `vvote_range == [overlap, ..., block_size + overlap - 1]` |
| OffsetRanges.OffsetRangesPartition | inference/serial_block_alignment.py:73-77 | the copy, serial and vote offsets are pairwise disjoint and together are exactly `range(block_size + overlap)` |
| OffsetRanges.SerialFieldsReachCopy | inference/serial_block_alignment.py:79 | `serial_offsets` has exactly the serial offsets as keys, and each serial offset plus its field offset is `overlap - 1`, the copied section |
| OffsetRanges.VoteFieldOffsets | inference/serial_block_alignment.py:80 | `vvote_offsets` holds exactly `-1, ..., -overlap`, so a vote uses `overlap` predecessors |
| OffsetRanges.RestartKeepsOrder | inference/serial_block_alignment.py:134-136 | the restart filter keeps the serial offsets descending and the vote offsets ascending, and keeps the copy offset only at or above the restart |
| NewAlignBlocks.RangesOverlap | inference/new_align_blocks.py:39-44 | for well-formed pairs, the three disjuncts hold exactly when the closed intervals intersect |
| NewAlignBlocks.RangesOverlapSymmetric | inference/new_align_blocks.py:39-44 | for well-formed pairs, `ranges_overlap` is symmetric |
| NewAlignBlocks.EvenOdd | inference/new_align_blocks.py:114 | `even_odd_range[i] == i % 2` |
| NewAlignBlocks.Successive | inference/new_align_blocks.py:118 | `zip(xs[:-1], xs[1:])` pairs each element with the next |
| NewAlignBlocks.EndPointCount | inference/new_align_blocks.py:113-118 | there are exactly as many block pairs as blocks |
| NewAlignBlocks.EndPointStep | inference/new_align_blocks.py:117-118 | block pair k is `(start_k, start_k + block_size)` |
| NewAlignBlocks.BlockPairsShape | inference/new_align_blocks.py:113-118 | the block pairs are as many as the blocks, pair k being `(start_k, start_k + block_size)` |
| NewAlignBlocks.Compress | inference/new_align_blocks.py:128 | `compress` yields no more elements than it is given |
| NewAlignBlocks.CompressTogether | inference/new_align_blocks.py:127-129 | compressing the block list and the tag list by the same filter keeps them aligned: element n of both comes from one flagged block k |
| NewAlignBlocks.CompressKeeps | inference/new_align_blocks.py:128 | every flagged element is kept |
| NewAlignBlocks.BlockFilter | inference/new_align_blocks.py:127 | flag k is `ranges_overlap(z_pair, block_pairs[k])` |
| NewAlignBlocks.AffectedRowOrder | inference/new_align_blocks.py:119-133 | the kept blocks appear in CSV row order: the blocks of earlier rows come first |
| NewAlignBlocks.AffectedSound | inference/new_align_blocks.py:115-134 | every kept block is a block of `range(z_start, z_stop, block_size)` that overlaps some CSV pair, and keeps its even/odd tag `k % 2` |
| NewAlignBlocks.AffectedComplete | inference/new_align_blocks.py:115-134 | every block that overlaps some CSV pair is kept |
| NewAlignBlocks.CompileBlockRange | inference/new_align_blocks.py:112-134 | without a z-range file the blocks are `range(z_start, z_stop, block_size)` tagged `i % 2`; with one, they are the blocks each row overlaps, row by row |
| NewAlignBlocks.BlockTags | inference/new_align_blocks.py:113-114 | block i starts at `z_start + i * block_size` and is tagged `i % 2` |
| NewAlignBlocks.Spans | inference/new_align_blocks.py:99-110 | each CSV row gives the interval `[z_start, z_stop)` with its box and `../models/<name>` |
| NewAlignBlocks.CompileModelLookup | inference/new_align_blocks.py:93-110 | `bbox_lookup` and `model_lookup` have the same keys, and each section gets the box and model of the last row covering it |
| NewAlignBlocks.ModelLookupLastRow | inference/new_align_blocks.py:108-110 | a section covered last by row i gets row i's box and model |
| NewAlignBlocks.ModelLookupUncovered | inference/new_align_blocks.py:108-110 | a section no row covers has no box and no model |
| AlignBlocks.SkipList | inference/align_blocks.py:122-153 | a section is in `skip_list` exactly when some parameter row with its skip flag set covers it, or the skip-list file lists it |
| AlignBlocks.VoteOffsets | inference/align_blocks.py:145 | a section's initial vote offsets are `-1, -2, ..., -tgt_radius` (none for a radius of 0 or less) |
| AlignBlocks.FreeBelow | inference/align_blocks.py:160-161 | moving a target down past skipped sections ends at or below where it started, on a section that is not skipped |
| AlignBlocks.FreeBelowIsLargest | inference/align_blocks.py:160-161 | every section strictly between that end point and the start is skipped, so the end point is the nearest free section below |
| AlignBlocks.ShiftedProperties | inference/align_blocks.py:158-162 | with a non-positive running shift, each adjusted offset is at or below its original plus the shift, its target is not skipped, and the adjusted list stays strictly decreasing |
| AlignBlocks.AdjustedProperties | inference/align_blocks.py:155-165 | after the adjustment, every offset of a section is at or below the original, lands on a section that is not skipped, the list is strictly decreasing, and it stays negative when the originals were |
| AlignBlocks.VoteOffsetsDecreasing | inference/align_blocks.py:145 | the initial vote offsets are negative and strictly decreasing |
| AlignBlocks.AdjustVotes | inference/align_blocks.py:125-165 | the loop over `vvote_lookup` fails with the source's `TypeError` exactly when the first section's list is empty (its `r` is then still the last CSV row, a list); otherwise it rewrites every section's list to its adjusted offsets and leaves `min_offset` the minimum of 0 and each list's last adjusted offset |
| AlignBlocks.AdjustSection | inference/align_blocks.py:158-162 | the inner loops for one section compute exactly its adjusted offsets, the shift accumulating along the list |
| AlignBlocks.ShiftedBelow | inference/align_blocks.py:158-162 | each adjusted offset is at or below its original offset plus the shift the walk starts with, so the last one bounds the `r + offset` that `min_offset` reads |
| AlignBlocks.SkipDown | inference/align_blocks.py:160-161 | `while r + offset + z in skip_list: offset -= 1` ends with `z + r + offset` on the nearest free section at or below where it started |
| AlignBlocks.MinOffsetBelowAll | inference/align_blocks.py:156-165 | `min_offset` is at or below every adjusted offset of every section, so `offset_range` contains them all (also lines 220) |
| AlignBlocks.FreeAbove | inference/align_blocks.py:173-174 | moving a block start up past skipped sections ends at or above the initial start, on a section that is not skipped |
| AlignBlocks.FreeAboveIsSmallest | inference/align_blocks.py:173-174 | every section from the initial start up to that end point is skipped |
| AlignBlocks.InitialStarts | inference/align_blocks.py:168-170 | the initial starts run from `z_start` and end with `z_stop`, each step positive and at most `block_size`; an empty stack gives none, where the source fails on `[-1]` |
| AlignBlocks.BlockBounds | inference/align_blocks.py:168-179 | the block bounds fail, naming the block, exactly when some block start moves up to the next initial start (the `assert(bs < be)`); otherwise each start is the first free section from its initial start and `block_stops` is `block_starts[1:]` closed by `z_stop` |
| AlignBlocks.AdjustStarts | inference/align_blocks.py:172-176 | the loop over consecutive initial starts succeeds exactly when no start reaches the next initial start, and then yields each block's first free section |
| AlignBlocks.SkipUp | inference/align_blocks.py:173-175 | for one block, the start is found exactly when the first free section lies before the next initial start |
| AlignBlocks.BlockBoundsProperties | inference/align_blocks.py:171-179 | the block starts are strictly increasing, never skipped, and each lies in `[initial_start, next_initial_start)` |
| AlignBlocks.AddTo | inference/align_blocks.py:209 | adding to a set keeps what it held and adds the new section |
| AlignBlocks.EmptyBlocks | inference/align_blocks.py:193-199 | before the first block, the bucket keys are exactly `range(1, block_size + 10)`, all empty, and no section has a block |
| AlignBlocks.EmptyStarters | inference/align_blocks.py:195-201 | before the first block, the starter bucket keys are exactly `range(min_offset, 0)`, all empty, and no starter or overlap copy is recorded |
| AlignBlocks.VisitTarget | inference/align_blocks.py:210-219 | a target at or before the block start gets the block's destination, and an overlap copy unless this is block 0; one strictly before it records offset `bs - tgt_z` and joins bucket `tgt_z - bs`; a later target changes nothing |
| AlignBlocks.VisitTargetSound | inference/align_blocks.py:210-219 | the key `tgt_z - bs` of `starter_offset_to_z_range` always exists, because a target lies less than `-min_offset` before the start |
| AlignBlocks.VisitTargets | inference/align_blocks.py:210-219 | the loop over one section's targets takes the starter lookups through exactly that section's target visits, in vote order, each visit doing what `VisitTarget` states; every bucket key `tgt_z - bs` it reads exists |
| AlignBlocks.VisitSection | inference/align_blocks.py:205-219 | visiting one section fails with the source's `KeyError` exactly when its block bucket or its vote list is missing; otherwise the section is assigned to the block's start and destination, a non-skipped section joins bucket `z - bs`, and the starter lookups advance by exactly that section's target visits (none for a skipped section) |
| AlignBlocks.AssignSection | inference/align_blocks.py:206-207 | `block_start_lookup[z] = bs` and `block_dst_lookup[z]` is block k's `k % 2` destination, with earlier assignments kept |
| AlignBlocks.BucketStep | inference/align_blocks.py:208-209 | adding a non-skipped section to bucket `z - bs` keeps every bucket holding only sections at that offset from their start |
| AlignBlocks.VisitBlock | inference/align_blocks.py:204-219 | the loop over `(bs, be]` fails at the first section that raises a `KeyError`; otherwise it assigns every section of the block and advances the starter lookups by the target visits of its non-skipped sections, in order |
| AlignBlocks.BuildLookups | inference/align_blocks.py:202-219 | the main lookup loop succeeds exactly when no section of any block raises a `KeyError`; then every section of block k is assigned to block k, the starter lookups are those that every block's target visits produce in loop order (the four `...Exact` lemmas below say what they hold), and they are sound |
| AlignBlocks.BlockStep | inference/align_blocks.py:202-219 | one pass of the main loop succeeds exactly when block k raises no `KeyError`; then block k is done too, and the starter lookups advance by block k's target visits |
| AlignBlocks.AllVisitsExact | inference/align_blocks.py:202-213 | the target visits of the main loop are exactly the triples (block k, its start, `z + tgt_offset`) for a non-skipped section z of `(bs, be]` and an adjusted offset of z, and they come block by block |
| AlignBlocks.StarterDstExact | inference/align_blocks.py:202-214 | `starter_dst_lookup[t]` exists exactly when some section votes for t at or before its block start, and holds the parity `k % 2` of the latest such block, which overwrites the earlier ones |
| AlignBlocks.StarterOffsetExact | inference/align_blocks.py:202-218 | `starter_z_to_offset[t]` exists exactly when some section votes for t strictly before its block start, and holds the distance `bs - t` to the latest such block start |
| AlignBlocks.StarterBucketsExact | inference/align_blocks.py:198-219 | `starter_offset_to_z_range` has exactly the keys `range(min_offset, 0)`, and bucket o holds exactly the targets t voted for strictly before a block start bs with `t - bs == o` |
| AlignBlocks.OverlapCopyExact | inference/align_blocks.py:202-216 | `overlap_copy_range` holds exactly the targets voted for at or before the start of a block other than the first |
| AlignBlocks.StartersSound | inference/align_blocks.py:202-219 | after the main loop each starter is aligned to a block start at most `-min_offset` after it, its bucket agrees with that start, and overlap copies exist only when there is a second block |
| AlignBlocks.VisitedDst | inference/align_blocks.py:212-213 | after a sequence of visits from an empty `starter_dst_lookup`, t has an entry exactly when some visit reaches it at or before its block start, and the last such visit sets it |
| AlignBlocks.VisitedOffset | inference/align_blocks.py:217-218 | after a sequence of visits from an empty `starter_z_to_offset`, t has an entry exactly when some visit lies strictly before its block start, and the last such visit sets it |
| AlignBlocks.VisitedBucket | inference/align_blocks.py:217-219 | visits keep the bucket keys, and a bucket gains exactly the targets of its offset |
| AlignBlocks.VisitedOverlap | inference/align_blocks.py:214-216 | visits add to `overlap_copy_range` exactly the targets at or before a start of a block other than the first |
| AlignBlocks.BlocksOkStep | inference/align_blocks.py:202-219 | the first k + 1 blocks run without a `KeyError` exactly when the first k do and block k does |
| AlignBlocks.AdjacentBlocksDiffer | inference/align_blocks.py:202-207 | every section of block k gets destination `k % 2`, so sections of neighbouring blocks go to different volumes |
| AlignBlocks.AtLeast | inference/align_blocks.py:230-231 | the restart filter keeps exactly the keys at or above the restart offset |
| AlignBlocks.AtLeastIncreasing | inference/align_blocks.py:230-231 | the filter keeps an increasing key order |
| AlignBlocks.AtLeastDecreasing | inference/align_blocks.py:230-231 | the filter keeps a decreasing order |
| AlignBlocks.AtMost | inference/align_blocks.py:228-229 | the starter filter keeps exactly the keys at or below `starter_restart` |
| AlignBlocks.Gather | inference/align_blocks.py:236-237 | the flattened range holds exactly the sections of the kept buckets |
| AlignBlocks.CopyRange | inference/align_blocks.py:196-236 | `copy_range` is the block starts when restarting at offset 0, and empty otherwise |
| AlignBlocks.RestartBlockRangeSound | inference/align_blocks.py:230-236 | every section re-aligned on a restart at offset r is not skipped and lies at least r after its block start |
| AlignBlocks.RestartBlockRangeComplete | inference/align_blocks.py:202-231 | every non-skipped section at least r after its block start is re-aligned |
| AlignBlocks.RestartStarterRange | inference/align_blocks.py:223-237 | the kept starter offsets are negative and at most `starter_restart`; every kept starter is aligned to a block start; with a positive restart (sentinel -100) no starter is kept once `min_offset > -100` |
| SerialAlignment.Chunks | inference/serial_block_alignment.py:125-128 | one call dispatches exactly `n_chunks` tasks, chunk c writing the marker of its kind, volume and prefix |
| SerialAlignment.BlockTasks | inference/serial_block_alignment.py:142-148 | every task of a block loop has the loop's kind and prefix, and all of them go to the given field when there is one |
| SerialAlignment.PairTasks | inference/serial_block_alignment.py:237-248 | every task of the pairwise loop is a `compute_field` task with the offset as prefix |
| SerialAlignment.PairBlock | inference/serial_block_alignment.py:241-248 | the pairwise tasks of one block are `compute_field` tasks with the offset as prefix |
| SerialAlignment.PairWaits | inference/serial_block_alignment.py:258-262 | one wait per vote offset, on `pair_fields[z_offset]` for `compute_field_done/<prefix>`, each expecting the same count |
| SerialAlignment.FirstMissing | inference/serial_block_alignment.py:172-173 | `None` exactly when every serial offset has a field offset; otherwise the index of the first one without, where `serial_offsets[block_offset]` raises |
| SerialAlignment.SerialAligner.constructor | inference/serial_block_alignment.py:125-128 | an aligner with `n_chunks` chunks and an empty log |
| SerialAlignment.SerialAligner.Run | inference/serial_block_alignment.py:151 | `run(a, batch)` appends the batch to the log and changes nothing else |
| SerialAlignment.SerialAligner.WaitFor | inference/serial_block_alignment.py:166 | `wait_for_queue_empty` appends one wait with its count |
| SerialAlignment.SerialAligner.BlockBatch | inference/serial_block_alignment.py:139-148 | the batch built by the block loop is the block tasks of every block in order |
| SerialAlignment.SerialAligner.PairBatch | inference/serial_block_alignment.py:235-248 | the batch built by the nested block and offset loops is the pairwise tasks of every block in order |
| SerialAlignment.SerialAligner.WaitTypes | inference/serial_block_alignment.py:221-228 | the two waits on the even and odd volumes, expecting `n_chunks * ceil(len/2)` and `n_chunks * (len // 2)` |
| SerialAlignment.SerialAligner.CopyPhase | inference/serial_block_alignment.py:138-166 | the copy phase logs its batch and then its waits |
| SerialAlignment.SerialAligner.CopyTasks | inference/serial_block_alignment.py:139-148 | the copy batch over every copy offset and every block |
| SerialAlignment.SerialAligner.CopyWaitAll | inference/serial_block_alignment.py:157-166 | the even and odd waits for each copy offset |
| SerialAlignment.SerialAligner.SerialOffset | inference/serial_block_alignment.py:173-228 | one serial offset logs the field batch, the wait for `len(batch)` field markers, the render batch and the even and odd render waits |
| SerialAlignment.SerialAligner.VoteOffset | inference/serial_block_alignment.py:234-315 | one vote offset logs the pairwise batch and waits, the vote batch and its wait, and the render batch and its waits |
| SerialAlignment.SerialAligner.PairWaitAll | inference/serial_block_alignment.py:258-262 | one wait per vote offset, in order |
| SerialAlignment.SerialAligner.SerialRun | inference/serial_block_alignment.py:172-231 | the serial loop logs the serial phase; it stops before the first offset with no field offset, which it reports |
| SerialAlignment.SerialAligner.VoteRun | inference/serial_block_alignment.py:234-318 | the vote loop logs every vote offset's step in order |
| SerialAlignment.SerialAligner.Align | inference/serial_block_alignment.py:125-318 | the whole script: reports the serial offset that raises `KeyError`, if any, and logs the copy, serial and vote phases of the restart-filtered ranges (also lines 71-80) |
| SerialAlignment.FirstMissingAt | inference/serial_block_alignment.py:172-173 | the first serial offset with no field offset decides where the loop stops |
| SerialAlignment.FirstMissingNone | inference/serial_block_alignment.py:172-173 | when every serial offset has a field offset, the loop never raises |
| SerialAlignment.CountConcat | inference/serial_block_alignment.py:151 | the markers of two batches add up |
| SerialAlignment.CountBlockTasks | inference/serial_block_alignment.py:142-165 | a block loop writes `n_chunks * ceil(len/2)` markers to the even volume and `n_chunks * (len // 2)` to the odd one, exactly what the waits expect |
| SerialAlignment.CountPairBlock | inference/serial_block_alignment.py:241-248 | with distinct vote offsets, one block writes `n_chunks` markers to each pairwise field |
| SerialAlignment.CountPairTasks | inference/serial_block_alignment.py:237-260 | with distinct vote offsets, the pairwise loop writes `len(block_range) * n_chunks` markers to each pairwise field, the count its wait expects |
| SerialAlignment.MarkerCountsSum | inference/serial_block_alignment.py:161-165 | the even and odd counts together are `n_chunks * len(block_range)`: no block is missed or counted twice |
| SerialAlignment.TypeWaitsMatch | inference/serial_block_alignment.py:204-228 | after a block batch, the even and odd waits expect exactly the markers written |
| SerialAlignment.SerialStepMatch | inference/serial_block_alignment.py:173-228 | within one serial offset, every wait expects exactly the markers written before it |
| SerialAlignment.PairStepMatch | inference/serial_block_alignment.py:237-262 | the pairwise waits expect exactly the markers written by the pairwise batch |
| SerialAlignment.VoteStepMatch | inference/serial_block_alignment.py:234-315 | within one vote offset, every wait expects exactly the markers written before it |
| SerialAlignment.SerialPhaseMatch | inference/serial_block_alignment.py:172-231 | for descending serial offsets after a matching log with larger prefixes, every wait of the serial phase expects exactly the markers written before it |
| SerialAlignment.VotePhaseMatch | inference/serial_block_alignment.py:234-318 | for ascending vote offsets after a matching log with smaller prefixes, every wait of the vote phase expects exactly the markers written before it |
| SerialAlignment.CopyPhaseMatch | inference/serial_block_alignment.py:138-166 | the copy waits expect exactly the markers of the copy batch, all with the copy offset as prefix |
| SerialAlignment.FilteredRanges | inference/serial_block_alignment.py:73-77 | after the restart filter the copy range is at most `[overlap - 1]`, the serial range descends within `0..overlap-2` and has every field offset, and the vote range ascends from `overlap` (also lines 134-136) |
| SerialAlignment.ScriptWaitsMatch | inference/serial_block_alignment.py:134-318 | for `overlap >= 1` the script never raises and every wait in its log expects exactly the markers written before it, so no wait blocks forever or returns early (also lines 71-80) |
| SerialAlignment.CopySerialMatch | inference/serial_block_alignment.py:138-231 | the copy and serial phases together keep waits and markers matched, and their prefixes stay below `overlap` |
| SerialAlignment.NoRadiusKeyError | inference/serial_block_alignment.py:72-80 | with `overlap == 0` and `block_size >= 2`, the first serial offset has no field offset, so the script raises `KeyError` (also lines 172-173) |
| SerialAlignment.SerialTargetsReady | inference/serial_block_alignment.py:181-182 | every serial offset aligns to the copied section: each serial target plus its field offset is `overlap - 1`, which is copied unless the restart skips it (also lines 79) |
| SerialAlignment.VoteTargetReady | inference/serial_block_alignment.py:241-243 | every section a vote reads from, if not before the restart, was copied, serially aligned, or voted at an earlier vote offset |
| SerialAlignment.VoteRangeBounds | inference/serial_block_alignment.py:77-136 | every vote offset is at least `overlap` |
| SerialAlignment.ReadySerial | inference/serial_block_alignment.py:76-135 | every section below `overlap - 1` and not before the restart is serially aligned |
| SerialAlignment.ReadyVote | inference/serial_block_alignment.py:77-136 | every section between `overlap` and a vote offset, not before the restart, is voted at an earlier vote offset |
| AlignStitch.Prepend | inference/align_blocks.py:250-251 | a section taken in front of the rest of the walk: success and error are those of the rest |
| AlignStitch.TakenWithin | inference/align_blocks.py:246-251 | every stitched section of a successful walk lies in `(bs, be]`, is not skipped, has parameters and an offset of at most `block_size` |
| AlignStitch.TakenOrdered | inference/align_blocks.py:246-253 | the stitched sections ascend, and every non-skipped section up to the last one taken is taken: the walk stops only at its `break` |
| AlignStitch.TakenCapped | inference/align_blocks.py:248-253 | the n-th stitched section is taken only while `n` is below the running maximum of `tgt_radius`, and the first section that fails this ends the walk |
| AlignStitch.Offsets | inference/align_blocks.py:251 | the recorded offsets are `bs - z` for each stitched `z`, in order |
| AlignStitch.OffsetsDecreasing | inference/align_blocks.py:246-251 | a block's stitch offsets lie in `[-block_size, 0)` and strictly decrease |
| AlignStitch.AddAllMembers | inference/align_blocks.py:250 | appending the stitched sections of a block keeps the keys of `stitch_offset_to_z_range` and adds each `z` to bucket `z - bs` only |
| AlignStitch.AddAllKeys | inference/align_blocks.py:242-250 | the keys stay exactly `1..block_size` |
| AlignStitch.EmptyStitch | inference/align_blocks.py:242 | `{i: [] for i in range(1, block_size+1)}`: keys `1..block_size`, every bucket empty |
| AlignStitch.StitchBlock | inference/align_blocks.py:245-253 | the loop over `range(bs, be+1)` fails exactly when the walk does, with its error, and otherwise appends the walk's sections to their buckets and returns its offsets |
| AlignStitch.StitchAll | inference/align_blocks.py:242-253 | the stitch buckets after blocks `1..k-1` keep the keys `1..block_size` |
| AlignStitch.StitchPlan | inference/align_blocks.py:242-257 | succeeds exactly when every walk succeeds and every block records an odd number of offsets; on success `stitch_range` is the buckets gathered in key order and each block start maps to its offsets; on failure it names the failing block |
| AlignStitch.WalkBlocks | inference/align_blocks.py:244-253 | the walks of `block_starts[1:]` in order succeed exactly when each one does, returning the buckets and each block's offsets, and otherwise report the first failing block |
| AlignStitch.WalkFails | inference/align_blocks.py:244-253 | one failing walk makes the whole walk fail with its error |
| AlignStitch.StitchAllMembers | inference/align_blocks.py:242-253 | `z` is in bucket `i` exactly when some block `m >= 1` stitched `z` with `z - block_starts[m] == i` |
| AlignStitch.StitchRangeMembers | inference/align_blocks.py:254 | `z` is in `stitch_range` exactly when some block after the first stitched `z` |
| AlignStitch.StitchFieldKeysAsWritten | inference/align_blocks.py:286-291 | the stitch fields are created for exactly the offsets `min_offset` to `-min_offset` of `offset_range` |
| AlignStitch.StitchFieldMissing | inference/align_blocks.py:498-504 | on a concrete parameter table a block's walk succeeds with offsets -1, -3 and -4 while `min_offset` is -3, so the stitch copy reads a stitch field that was never created |
| AlignStitch.StitchFieldsCover | inference/align_blocks.py:498-520 | with keys from `min(min_offset, -block_size)` to `-min_offset`, every offset a successful walk records names a stitch field, and so does every offset of `offset_range` |
| AlignSchedule.Tasks | inference/align_blocks.py:308-309 | one `execute` call sends one task per listed section |
| AlignSchedule.Dispatcher.constructor | inference/align_blocks.py:302-305 | a dispatcher with `a.threads` threads and nothing sent |
| AlignSchedule.Dispatcher.Execute | inference/align_blocks.py:302-321 | splitting the list with `make_range` and sending piece after piece sends exactly the list's tasks in order; an empty list sends nothing |
| AlignSchedule.Dispatcher.SendPiece | inference/align_blocks.py:308-321 | the tasks of one piece are appended in order |
| AlignSchedule.Dispatcher.Run | inference/align_blocks.py:525-554 | the whole dispatch appends exactly the schedule of the plan |
| AlignSchedule.Dispatcher.RunOffsets | inference/align_blocks.py:529-549 | a `for z_offset in sorted(...)` loop appends compute, vote and render of every offset in turn |
| AlignSchedule.Dispatcher.RunOffset | inference/align_blocks.py:530-536 | one offset appends its compute, vote and render tasks, in that order |
| AlignSchedule.TasksSnoc | inference/align_blocks.py:308-309 | sending one more section appends its task |
| AlignSchedule.TasksConcat | inference/align_blocks.py:305-309 | sending two lists one after the other is sending their concatenation |
| AlignSchedule.TasksAre | inference/align_blocks.py:308-309 | task i of a call is the listed section i with the call's phase and offset |
| AlignSchedule.InOrderConcat | inference/align_blocks.py:525-554 | two ordered logs, the first wholly not after the second, concatenate to an ordered log |
| AlignSchedule.TasksAt | inference/align_blocks.py:308-309 | the tasks of one call are in order and all at the phase's stage |
| AlignSchedule.TripleInOrder | inference/align_blocks.py:532-536 | compute, vote then render of one offset are in order, at one stage and with that offset |
| AlignSchedule.OffsetLoopInOrder | inference/align_blocks.py:529-536 | for ascending offsets, the offset loop's tasks are in order, all at one stage and at most the last offset |
| AlignSchedule.ScheduleInOrder | inference/align_blocks.py:525-554 | with ascending keys, every task of the schedule is sent no later than the tasks after it: an earlier stage first, within a stage smaller offsets first, within an offset compute before vote before render |
| AlignSchedule.StitchingInOrder | inference/align_blocks.py:541-554 | the stitching phases follow the alignment phases in order |
| AlignSchedule.AlignmentInOrder | inference/align_blocks.py:525-536 | the copy, starter and block phases are in order and all before the stitching stages |
| AlignSchedule.AlignPlan | inference/align_blocks.py:223-237 | the plan after the restart filter is well formed, its block and stitch offsets ascend as `sorted(...)` visits them, every block offset is at least the restart and below `block_size + 10`, and the broadcast vote covers `block_starts[1:]` (also lines 529, 542, 554) |
| AlignSchedule.RangeIncreasing | inference/align_blocks.py:542 | `range(lo, hi)` ascends, so it is already sorted |
| Pairwise.AccessErrors | inference/pairwisetensors.py:62-85 | a key that is not a pair fails reads and writes with `ValueError`; a read succeeds exactly when the offset is registered; an unregistered offset fails a read with `ValueError` and a write with `KeyError` |
| Pairwise.ReadAfterWrite | inference/pairwisetensors.py:59-88 | a value written under `(tgt, src)` is read back there, and every pair with another key reads as before |
| Pairwise.KeyOfPair | inference/pairwisetensors.py:66-69 | `f_{z+k <- z}` is kept in volume `k` at section `z` |
| Pairwise.PathOffsets | inference/pairwisetensors.py:146 | a path of n sections has `n - 1` hop offsets |
| Pairwise.Hops | inference/pairwisetensors.py:151-153 | a path of n sections has `n - 1` stored hops |
| Pairwise.ReadPathOk | inference/pairwisetensors.py:143-158 | a path of three or more sections reads exactly when every hop offset is registered, and then is the composition of its hops |
| Pairwise.HopsReadable | inference/pairwisetensors.py:146-150 | every hop offset is registered exactly when every hop `(p[i], p[i+1])` can be read as a pair |
| Pairwise.HopsRead | inference/pairwisetensors.py:151-153 | hop i of a readable path is what reading `(p[i], p[i+1])` returns |
| Pairwise.ReadPathHops | inference/pairwisetensors.py:143-158 | a long path reads exactly when each of its hops does, and composes exactly those hop values |
| Pairwise.ReadThree | inference/pairwisetensors.py:243 | `(z+k, z+j, z)` reads exactly when offsets `k - j` and `j` are registered, and gives `f_{z+k <- z+j} o f_{z+j <- z}` |
| Pairwise.PairwiseTensors.constructor | inference/pairwisetensors.py:195-214 | a store with the given offsets, blank value and contents |
| Pairwise.PairwiseTensors.Set | inference/pairwisetensors.py:59-70 | `__setitem__` fails exactly as the write does, leaving the store unchanged, and otherwise stores the value at its key |
| Pairwise.Intermediaries | inference/pairwisetensors.py:238 | `[1:3]` of the argsort: two intermediaries with at least three offsets, one with two, none with one, taken from the second and third nearest |
| Pairwise.FirstIsNearest | inference/pairwisetensors.py:238 | the first offset of the argsort is a nearest one to k |
| Pairwise.IntermediariesNearest | inference/pairwisetensors.py:237-238 | with distinct offsets containing k, the intermediaries are `min(2, n-1)` other offsets, and no unchosen offset other than k is nearer to k than any of them |
| Pairwise.UnchosenFarther | inference/pairwisetensors.py:238 | an offset that is neither k nor an intermediary is at least as far from k as each intermediary |
| Pairwise.CandidatesShape | inference/pairwisetensors.py:236-244 | when every needed offset is registered, the estimates are the direct field followed by one composed field per intermediary, in order |
| Pairwise.Outcomes | inference/pairwisetensors.py:234-251 | the vote of each target offset, in order |
| Pairwise.WriteFromStops | inference/pairwisetensors.py:234-253 | once a read has failed, later offsets write nothing |
| Pairwise.WriteFromOk | inference/pairwisetensors.py:234-253 | the task fails exactly when some offset's estimates cannot be read, and then with the error of the first such offset |
| Pairwise.WriteFromWrites | inference/pairwisetensors.py:252-253 | after a successful task, with distinct target offsets, each `(z+k, z)` holds its voted field and its partition, and every other key is unchanged |
| Pairwise.CandidatesPrefix | inference/pairwisetensors.py:240-244 | a failing intermediary read fails the whole gathering with its error, and nothing is read unless the direct pair is registered |
| Pairwise.CandidatesSnoc | inference/pairwisetensors.py:240-244 | each intermediary appends one composed read |
| Pairwise.GatherCandidates | inference/pairwisetensors.py:236-244 | the loop over intermediaries gathers exactly the candidate list, or its first read error |
| Pairwise.WritePair | inference/pairwisetensors.py:252-253 | writing under `(z+k, z)` for a registered k succeeds and updates key `(k, z)` only |
| Pairwise.Vote | inference/pairwisetensors.py:192-253 | `PairwiseVoteTask.execute` leaves the estimates unchanged and ends with the error and the two written stores that the offset-by-offset vote specifies |
| Pairwise.Normalise | inference/pairwisetensors.py:249-250 | `weights / partition` keeps one weight per estimate |
| Pairwise.Scale | inference/pairwisetensors.py:250 | scaling multiplies each weight by the constant |
| Pairwise.SumScale | inference/pairwisetensors.py:249-250 | the sum of scaled weights is the scaled sum |
| Pairwise.WeightedSumConst | inference/pairwisetensors.py:251 | weighting equal estimates gives the estimate times the weight sum |
| Pairwise.NormaliseIsScale | inference/pairwisetensors.py:250 | dividing by the partition is scaling by its reciprocal |
| Pairwise.NormaliseSumsToOne | inference/pairwisetensors.py:249-250 | for a non-zero partition the normalised weights sum to one |
| Pairwise.VoteOfEqual | inference/pairwisetensors.py:249-251 | when all estimates agree, the voted field is that estimate |
| Helpers.ReduceApplies | inference/helpers.py:19-22 | reducing with `compose` from an accumulator applies the accumulator first and then every function in order |
| Helpers.ComposeFunctionsApplies | inference/helpers.py:19-22 | `compose_functions(fseq)(x)` applies the functions of `fseq` to x first to last; no functions is the identity, one function is itself |
| Helpers.ApplyConcat | inference/helpers.py:19-22 | composing two lists of functions applies the first list, then the second |
| Helpers.PixelConversions | inference/helpers.py:352-380 | `rel_to_grid_px` and `grid_to_rel_px` invert each other for `N > 0`, and the corners `-1` and `+1` map to `-0.5` and `N - 0.5` |
| Helpers.MapField | inference/helpers.py:372-401 | a conversion keeps the field's shape and converts every vector with the same function |
| Helpers.FieldConversions | inference/helpers.py:355-401 | `grid_to_rel(rel_to_grid(U)) == U` and `rel_to_grid(grid_to_rel(V)) == V` for every rectangular field |
| Helpers.GridSide | inference/helpers.py:336-341 | an int size is used as is; a shape `(N, C, H, W)` is accepted exactly when `H == W` or it is a square field `(N, H, W, 2)`, giving `H`; a shorter shape fails on indexing |
| Helpers.IdentityCache.constructor | inference/helpers.py:350 | the cache starts empty |
| Helpers.IdentityCache.IdentityGrid | inference/helpers.py:323-349 | a bad size fails and leaves the cache alone; a cached side returns the cached grid; otherwise a new grid is made and cached only when `cache` is set |
| Helpers.CropWindow | inference/helpers.py:194-195 | for `crop >= 1` within the array, the crop keeps rows and columns `[crop, len - crop)`; for `crop == 0`, `[0:-0]` keeps nothing |
| Helpers.Downsample | inference/helpers.py:256-260 | the identity for `x <= 0`, otherwise average pooling by `2**x` |
| Helpers.UpsampleBy | inference/helpers.py:262-266 | the identity for `x <= 0`, otherwise upsampling by `2**x` |
| Helpers.Negate | inference/helpers.py:475 | `V = -U` entrywise |
| Helpers.ImmediateReturn | inference/helpers.py:457-477 | `invert` returns `-U` at once exactly when every `|2 U|` is below `1e-7` |
| Helpers.Costs | inference/helpers.py:481-489 | the cost list after n steps holds the n costs in order |
| Helpers.StopWindows | inference/helpers.py:497-499 | with positive window sizes, the history window is the `avgn` costs before the last `currn`, and the current window is the last `currn` |
| Helpers.StopTest | inference/helpers.py:495-501 | a zero last cost stops; a list no longer than `avgn + currn` continues; the test fails only past that length, with `AttributeError` for an empty window or `ZeroDivisionError` for a zero divisor |
| Helpers.StopTestPositive | inference/helpers.py:495-501 | with window sizes of at least 1 no window is empty; past `avgn + currn` costs the test fails exactly when the history mean is 0, and otherwise stops exactly when the relative change of the means is below `eps` |
| Helpers.StopTestZeroCurrent | inference/helpers.py:498-499 | `currn == 0` makes the current window `costs[-0:]`, the whole list, and the history window `costs[-avgn:-0]`, which is empty, so the test raises `AttributeError` |
| Helpers.StopTestEmptyCurrent | inference/helpers.py:498-499 | with costs `[1.0, 2.0]`, `avgn = 5` and `currn = -4` the current window `costs[4:]` is empty and the test raises `AttributeError` |
| Helpers.RunFrom | inference/helpers.py:484-504 | the loop from step t reports a final step of at least 1 and at least t, at most `max_iter` when it starts inside the range; with no step at all, reading `costs[-1]` fails |
| Helpers.InvertSteps | inference/helpers.py:468-504 | `invert` takes no step exactly when `-U` already inverts U within `1e-7`; otherwise it takes at most `max_iter` steps, and with `max_iter <= 0` it fails on the empty cost list |
| Helpers.RunFromSound | inference/helpers.py:484-501 | the loop runs at most `max_iter` steps, stops at the first step whose test says so, and fails at the first step whose cost is NaN, whose window is empty (`sum([]).item()` raises `AttributeError`) or whose test divides by zero |
| Helpers.Invert | inference/helpers.py:460-504 | the loop of `invert` runs exactly the steps, or fails with exactly the error, that the step-by-step specification gives |
| Render.AffineFor | inference/render.py:74-79 | no affine without a lookup (an empty lookup is falsy), the listed affine for a listed section, and the identity `[[1,0,0],[0,1,0]]` for any other |
| Render.SourceFor | inference/render.py:81-84 | the lookup's source for a listed section, the default source otherwise |
| Render.SendRenders | inference/render.py:101-113 | `render` sends exactly one request per listed section, in the listed order, whatever `make_range` cuts |
| Render.SendPiece | inference/render.py:71-99 | one iterator sends its piece's requests in order |
| Render.SendStep | inference/render.py:104-113 | the requests of the pieces sent so far, followed by one more piece, are those of the sections sent so far followed by that piece |
| Render.RequestSections | inference/render.py:88-98 | each request reads, warps and writes the same section z, with the given field and destination |
| Render.ConcatMembers | inference/render.py:175-183 | a section is listed exactly when some z-range row's `[z_start, z_stop)` holds it |
| Render.CompileZRange | inference/render.py:172-183 | without a z-range file the sections are `range(bbox_start, bbox_stop)`; with one, the rows' ranges concatenated in order |
| Render.Shift | inference/render.py:217-218 | `downsample_shift` is added to the translation column and the linear part is kept |
| Render.SectionSpans | inference/render.py:215-217 | each section entry applies to its own z |
| Render.NewPathsDistinct | inference/render.py:220-228 | the volumes created are distinct, and a path gets one exactly when some section names it and it is not the default source |
| Render.SectionStep | inference/render.py:215-229 | a later section entry for the same z overrides an earlier one |
| Render.CompileSections | inference/render.py:209-229 | `affine_lookup` and `src_lookup` have the same keys, the sections listed; each z gets the shifted transform and source of its last entry; one volume is created per new source path, in order of first use |
| StackData.Length | training/stack_dataset.py:128-133 | a stack of at least one section gives a non-negative, even length `2 * N`, with `N = Z - 1` |
| StackData.PairIndices | training/stack_dataset.py:135-139 | for `0 <= k < 2N` the sample is two consecutive sections `(i, i + 1)` within the stack: `i == k` in the forward half and `i == 2N - k - 1` in the backward half |
| StackData.PairIndicesMirror | training/stack_dataset.py:136-139 | items k and `2N - 1 - k` read the same pair of sections |
| StackData.SampleSplit | training/stack_dataset.py:115-140 | every item is the pair of consecutive sections it names, and `Split` makes its first section the source and its second the target |
| Architecture.Submodule | models/inverter_v7/architecture.py:68-71 | None, and an int at or above the height, become `slice(height)`; anything else is passed on unchanged |
| Architecture.ViewMatchesLevels | models/inverter_v7/architecture.py:232-236 | a view's aligners are the model's aligners at the view's levels, in order, and those levels are consecutive levels of the model |
| Architecture.SubmoduleLevels | models/inverter_v7/architecture.py:68-71 | None and any int at or above the height select every level; an int inside the height selects just that level; `-1` selects none (also lines 232-234) |
| Architecture.PixelSizeRatio | models/inverter_v7/architecture.py:319-328 | the ratio fails with `IndexError` exactly when the view has no level |
| Architecture.PixelSizeRatios | models/inverter_v7/architecture.py:319-328 | the whole network's ratio is `2 ** (height - 1)`, level i's is `2 ** i`, and `submodule(-1)` has none |
| Architecture.CopySlot | models/inverter_v7/architecture.py:352-380 | `IndexError` unless both ids lie in `[0, height)`; otherwise only the target slot changes, to the source's weights |
| Architecture.Shifted | models/inverter_v7/architecture.py:363-369 | after `shift_aligners` slot 0 is kept, slot 1 is a copy of the old slot 0, and every later slot i holds the old slot i - 1 |
| Architecture.InitLevel | models/inverter_v7/architecture.py:301-317 | with more than one level, `lowest` copies the second level's weights into the first and `highest` copies the next to last into the last, all else kept; otherwise nothing changes |
| Architecture.Network.constructor | models/inverter_v7/architecture.py:363-380 | a network with the given aligner and optional encoder weights, one per level |
| Architecture.Network.CopyAligner | models/inverter_v7/architecture.py:352-360 | fails exactly when the copy does, changing nothing; otherwise the aligners become the copied list and the encoders are untouched |
| Architecture.Network.CopyEncoder | models/inverter_v7/architecture.py:372-380 | out-of-range ids give `IndexError`; a network without encoders gives `AttributeError`; otherwise only the target encoder changes, to the source's weights |
| Architecture.Network.ShiftAligners | models/inverter_v7/architecture.py:363-369 | fails exactly when the height is below 2, changing nothing; otherwise the aligners are shifted |
| Architecture.Network.InitViewLevel | models/inverter_v7/architecture.py:301-317 | `init_level` on a view changes the model's aligners, which the view shares, as `InitLevel` says |
| Aligner.GridBelow | inference/aligner.py:299-310 | subtracting the remainder lands on the chunk grid, and so does one chunk below |
| Aligner.AlignDown | inference/aligner.py:299-310 | `start - remainder` is the largest grid point at or below `start` |
| Aligner.UpchunkStart | inference/aligner.py:245-258 | `get_upchunked_bbox` starts at the grid point just below `start`: one chunk below the smallest grid point at or above it |
| Aligner.UpchunkedBBox | inference/aligner.py:235-267 | the box starts at the up-chunked starts scaled to mip 0 and keeps the mip-0 size of the input box |
| Aligner.ProcessingChunkCapped | inference/aligner.py:315-327 | the processing chunk is the high-mip chunk scaled by `2 ** (process_high_mip - mip)` when that fits the cap, and the cap (`max_chunk`, or `max_render_chunk` when rendering) otherwise; it never exceeds the cap |
| Aligner.Column | inference/aligner.py:330-333 | one tile per y start, each `processing_chunk[0]` wide in both directions |
| Aligner.GridIndex | inference/aligner.py:329-333 | the tiles come x-major: tile `a * |ys| + b` starts at x start a and y start b |
| Aligner.BreakIntoChunks | inference/aligner.py:288-335 | the chunks are the tiles of the grid from the aligned-down starts to the range ends in steps of the processing chunk, in loop order |
| Aligner.StepRangeCovers | inference/aligner.py:329-330 | `range(lo, hi, step)` has `ceil((hi - lo) / step)` starts and every point of `[lo, hi)` lies in one tile |
| Aligner.ResidualRoundTrip | inference/aligner.py:407-414 | for a square tile of mip-0 size `side * 2**mip`, `save_residual_patch` undoes `abs_to_rel_residual` exactly (also lines 515-517) |
| Aligner.MaskMeansInside | inference/aligner.py:546-565 | a pixel is masked exactly when its value is 0 or at least 253 and it lies inside the total box |
| Aligner.MissingDataMask | inference/aligner.py:546-565 | the mask has the image's shape and each entry is the pixel's missing-and-inside test |
| Aligner.SupplementTargetWithBackup | inference/aligner.py:567-570 | each target pixel takes the backup's value exactly when it is still missing and the backup's pixel is not; all others are kept |
| Aligner.Contents | inference/aligner.py:591-602 | an array's contents form an image of the array's shape |
| Aligner.ContentsAt | inference/aligner.py:591-602 | pixel `(i, j)` of the contents is the array's entry `(i, j)` |
| Aligner.Filled | inference/aligner.py:567-622 | one supplement step keeps the image's shape |
| Aligner.FilledAt | inference/aligner.py:567-622 | each pixel of a supplemented image is filled from the backup exactly as `fill_in` says |
| Aligner.FilledRepairs | inference/aligner.py:567-570 | after a supplement a pixel is still missing exactly when it was missing in both target and backup, and a pixel that was present is unchanged |
| Aligner.BacktrackReads | inference/aligner.py:606-622 | the backtracking reads sections `z - 1, z - 2, ...` in turn, at most `num_targets - 1` of them, never one below `zs`, and none once nothing is missing |
| Aligner.Load | inference/aligner.py:598-602 | reading a section gives a fresh array holding that section |
| Aligner.AnyFlag | inference/aligner.py:611 | `np.any(mask)` is true exactly when some entry is set |
| Aligner.SameImage | inference/aligner.py:591-627 | two images of one shape that agree at every pixel are equal |
| Aligner.Supplement | inference/aligner.py:610-622 | one step reports whether anything is missing; if not the data is unchanged, otherwise it is supplemented from the backup |
| Aligner.BacktrackOnce | inference/aligner.py:607-622 | one iteration either stops the loop at the specified outcome (a section below `zs` or nothing missing) or supplements from `z - backtrack` and leaves the rest of the loop to do |
| Aligner.Backtracking | inference/aligner.py:606-622 | the backtracking loop produces exactly the image and the section list the specification gives |
| Aligner.GetImageData | inference/aligner.py:591-627 | `get_image_data` returns section z repaired by backtracking when `num_targets > 1` and backtracking is asked for, and section z unchanged otherwise |
| AlignerSingle.AsWrittenCases | inference/aligner_single.py:813-853 | for every box, when it meets the stored field without overhanging both ends the clipped windows agree in length and cell i gets the stored cell of its own mip-8 coordinate; a box wholly below fits exactly when its end is at or below `351 - 1152`, one wholly above exactly when its end is at or below `2 lo - 1503`, and a box overhanging both ends never fits |
| AlignerSingle.AsWrittenOverhang | inference/aligner_single.py:818-853 | for a box overhanging both ends of an axis (mip-8 range `[300, 1600)`) the windows differ in length, so the slice assignment of line 853 fails |
| AlignerSingle.AsWrittenOutside | inference/aligner_single.py:813-853 | the boxes `[1600, 1700)` (no stored cell against a 3-cell destination) and `[100, 200)` (1001 stored cells against an empty destination), wholly outside the stored field, make the slice assignment of line 853 fail |
| AlignerSingle.AsWrittenPlan | inference/aligner_single.py:813-847 | before Python clips them, the two windows of each of the three cases have the same length and destination cell i faces stored cell `lo + i - 351`, so every failure comes from the clipping |
| AlignerSingle.CorrectedPlan | inference/aligner_single.py:813-853 | the corrected windows lie within the stored field and within the box, have the same length, and face each other cell by cell |
| AlignerSingle.CorrectedPlanSound | inference/aligner_single.py:813-853 | the corrected windows need no clipping and agree in length; destination cell i is filled exactly when its mip-8 coordinate is stored, from that cell; on the source's own cases it is the source's plan |
| AlignerSingle.FieldFromH5 | inference/aligner_single.py:806-853 | the corrected `get_field_from_h5` (the as-written copy fails on the boxes of `AsWrittenCases`): a fresh field of the box's size holding, at each cell, the stored vector of its mip-8 coordinate where there is one and zero elsewhere |
| AlignerSingle.ToRenderMip | inference/aligner_single.py:857-859 | each vector is multiplied by `2 ** (8 - render_low_mip)`; at mip 8 it is unchanged |
| AlignerSingle.PerRowIsCeil | inference/aligner_single.py:458 | `(calign_x_len + in_x_len - 1) // in_x_len` is the ceiling of the aligned width over the tile width |
| AlignerSingle.BBoxId | inference/aligner_single.py:435-460 | `get_bbox_id` raises `ZeroDivisionError` exactly for a tile with an empty side; `LatticeId` gives the id of every other tile |
| AlignerSingle.LatticeId | inference/aligner_single.py:435-460 | the tile at row r and column c of the lattice over the aligned-down total box gets id `r * ceil(aligned_width / w) + c` |
| AlignerSingle.LatticeIdsDistinct | inference/aligner_single.py:458-459 | two lattice tiles with columns inside one row get the same id only when they are the same tile |
| AlignerSingle.FloorDiv | inference/aligner_single.py:475 | `int(max_displacement / 2**mip)` is the floor of the quotient for non-negative values |
| AlignerSingle.MipDisp | inference/aligner_single.py:475 | `mip_disp` is the displacement in whole pixels at this mip, rounded down |
| AlignerSingle.ScaleFlow | inference/aligner_single.py:476 | `2 * agg_flow / image.shape[-1]` keeps the flow's shape and scales every vector |
| AlignerSingle.RowEntriesZero | inference/aligner_single.py:481 | a row's entries are all zero exactly when every vector of the row is zero |
| AlignerSingle.EntriesZero | inference/aligner_single.py:481 | all entries of a flow are zero exactly when every vector is zero |
| AlignerSingle.SeqMin | inference/aligner_single.py:481 | `torch.min` is an entry no greater than any entry |
| AlignerSingle.SeqMax | inference/aligner_single.py:481 | `torch.max` is an entry no smaller than any entry |
| AlignerSingle.MovesIffNonZero | inference/aligner_single.py:481 | `min != 0 or max != 0` holds exactly when some entry is non-zero |
| AlignerSingle.ScaleKeepsZero | inference/aligner_single.py:476-481 | the scaled flow is zero exactly when the flow is |
| AlignerSingle.ZeroQuotient | inference/aligner_single.py:476 | `2x / w` is zero exactly when x is |
| AlignerSingle.WarpCropEmpty | inference/aligner_single.py:475-508 | when `max_displacement < 2 ** mip`, `mip_disp` is 0 and the crop `[0:-0, 0:-0]` leaves an empty patch |
| AlignerSingle.WarpCrop | inference/aligner_single.py:508 | the corrected crop removes `mip_disp` cells from each side |
| AlignerSingle.WarpCropAgrees | inference/aligner_single.py:508 | the corrected crop keeps the whole patch for `mip_disp == 0` and is the source's crop for `mip_disp >= 1` |
| AlignerSingle.EntriesNonEmpty | inference/aligner_single.py:476-481 | scaling keeps a non-empty flow non-empty, so `torch.min` is defined |
| AlignerSingle.EntriesLength | inference/aligner_single.py:481 | a flow has no entries exactly when every row is empty |
| AlignerSingle.WarpPatchSkips | inference/aligner_single.py:465-508 | a flow that moves nothing leaves the image unresampled; one that moves something resamples it with the scaled flow; either way the result is cropped by `mip_disp` |
| AlignerSingle.WarpPatch | inference/aligner_single.py:465-508 | the patch `warp_patch` returns has `mip_disp` cells cut off each side of both axes (with the corrected crop) |
| AlignerSingle.Copies | inference/aligner_single.py:893-895 | one `copy_section` of the start section per mip from `render_low_mip` to `high_mip`, in order |
| AlignerSingle.Renders | inference/aligner_single.py:897-902 | one `render_section_all_mips(z - 1, bbox, start_section - 1)` for z from `start_section` down to `end_section + 1` |
| AlignerSingle.AlignNgStack | inference/aligner_single.py:884-904 | fails exactly when the parameters are not all set; otherwise copies the anchor at every mip when `move_anchor` and then renders the sections in order |
| AlignerSingle.RenderOrder | inference/aligner_single.py:899-902 | section z is rendered exactly when `end_section <= z < start_section`, and the sections are rendered in strictly descending order |
| Tasks.WindowStart | inference/tasks.py:61 | the crop of a patch starts `overlap` pixels in exactly when the patch's lower edge lies above the volume's lower bound, and at 0 when it lies on (or below) that bound |
| Tasks.OutputCropWindow | inference/tasks.py:61 | the saved image is a `size.0 x size.1` window of the predicted image, whose pixel `(i, j)` is the predicted pixel `(sx + i, sy + j)` with `sx, sy` the window starts |
| Tasks.ExecuteProtocol | inference/tasks.py:327-341 | under `dry_run` the six guarded tasks write nothing; otherwise (and always for ResAndCompose and ComputeFcorr) a task writes one marker, last, on its output volume, after saves that are all at the marker's section, the first of them the output itself (also lines 394-403, 444-454, 482-489, 524-531, 562-569, 745-748, 800-804) |
| Tasks.Storage.constructor | inference/tasks.py:338-341 | a fresh store holds no saved section, no file and an empty write log |
| Tasks.Storage.Save | inference/tasks.py:328-337 | a save adds `(volume, z)` to the saved sections, leaves the files alone and is appended to the write log |
| Tasks.Storage.PutFile | inference/tasks.py:338-341 | `put_file` adds `(volume, path)` to the files, leaves the saved sections alone and is appended to the write log |
| Tasks.Storage.Run | inference/tasks.py:327-341 | running a task appends exactly its protocol's writes to the log; a dry run of a guarded task changes nothing, any other run adds exactly its marker file and exactly its saves (also lines 482-489, 745-748, 800-804) |
| Tasks.MarkersSeparateKinds | inference/tasks.py:339 | every marker starts with its kind's tag, and two tasks with the same marker are of the same kind (also lines 402, 453, 488, 530, 568, 746, 803) |
| Tasks.TagPrefix | inference/tasks.py:339 | the first five characters of a marker are its kind's tag (also lines 402, 453, 488, 530, 568, 746, 803) |
| Tasks.MaskLogicOp | inference/tasks.py:287-292 | "and" selects the conjunction and "or" the disjunction, and any other op is an error (the `UnboundLocalError` of the unset result), with both directions stated |
| Tasks.MaskLogicEffects | inference/tasks.py:287-294 | a known op saves the combined mask once at `dst_z`; an unknown op saves nothing; no marker is written |
| Tasks.NatToString | inference/tasks.py:465 | the decimal form of a natural is a non-empty string of digits |
| Tasks.NatToStringValue | inference/tasks.py:465 | reading the digits of `str(n)` back gives `n` |
| Tasks.ParseIntRoundTrip | inference/tasks.py:465 | `int(str(n)) == n` for every integer, negative ones included |
| Tasks.Serialise | inference/tasks.py:465 | serialising a field map keeps its length and writes each offset as its decimal string beside its unchanged value |
| Tasks.ConvertSerialised | inference/tasks.py:465 | converting the keys of a serialised field map never fails, and yields a map from exactly the listed offsets to the value listed last under each |
| Tasks.Truth | inference/tasks.py:470-471 | `bool(v)` is the flag itself for a boolean, nonzero for an integer and false for null |

## Left out

- Reads and writes of CloudVolume, Google Storage and HDF5 files, and the SQS/local task queues: storage is a map or an append-only log, and a queue is the ordered log of dispatched tasks.
- The semantics of `wait_for_queue_empty` (polling, timeouts): a wait is an entry in the dispatch log, and the model proves where the waits sit, not what the workers do meanwhile.
- The in-memory alignment path of `inference/new_align_blocks.py:237-419` and its `range_list` at line 447: only the planning and the CSV lookups of that script are modelled.
- Python sets that the scripts iterate over (the `to_align` and `to_render` sets and the like) are modelled as sequences in insertion order; CPython's iteration order of an int set is not modelled.
- Positive block sizes, chunk sizes, thread counts, steps and non-zero divisors are required where the source would raise `ZeroDivisionError` or the `ValueError` of `range(..., step=0)`; those error paths are not modelled, because every caller passes positive command-line values.
- `copy_field_range` and `broadcast_field_range` of the aligner: plain loops of copies whose behaviour is I/O.
- Network training (`train_level`, `models/inverter_v7/architecture.py:278`) and the forward, convolution and upsampling code of the models: numerical tensor code outside the bookkeeping modelled here.
- Floating-point arithmetic: scales, weights and normalisations are modelled on Dafny `real`, without rounding.
- The vote weights (`voting_weights`, a softmin of distances) and field composition are abstract functions; `cloudsample_multicompose` is modelled as the right-nested composition `compose(fs[0], compose(fs[1], ...))` (`Pairwise.ComposeAll`), with no claim of associativity.
- Pairwise.Normalise: a pixel whose weights all sum to zero is not modelled; the source divides by that sum and produces NaN.
- The three pairwise stores (forward fields, backward fields, weights) are distinct objects in the model; aliasing between them is not modelled.
- Parsing of JSON task messages and CSV files: a task arrives as a datatype; a CSV row as an integer tuple.
- Devices (`cuda`, `cpu`) and the identity grid's values: a field is abstract, so the identity field is a parameter.
- The retry loops on `AttributeError` in `inference/aligner.py:598-604` and `614-620` (a missing level in the storage info): the model reads a missing section as a `None` value instead.
- `_create_info_files` and the division by 255 in `preprocess_data`: metadata I/O and a scaling of pixel values.
- The interpolation of `upsample_field` and the `run_pairs` branch of `warp_patch` (`inference/aligner_single.py:485-506`): numeric tensor code; only the shapes are modelled.
- Broadcasting of one-wide arrays, the positive-width assumption of the flow scale, and the `min`/`max` of an empty tensor (which raise in the source): the model requires non-empty images.
- Python `int()` also accepts surrounding whitespace and digit-separating underscores; the model's `ParseInt` accepts only an optional sign followed by digits, which is all `str()` produces.
- `mask_conjunction_chunk` and `mask_disjunction_chunk` are not part of this model: `MaskLogicEffects` models only which op is selected and what is saved.
- The shape assumption of `resample` (a field whose shape matches the image's): shapes are not tracked.
- Three code paths cannot run as written and are left out: `inference/render.py:231` calls the `render` of line 35 without its required `cm` and `bbox` arguments, which raises `TypeError`; `inference/tasks.py:664` calls `super().__init` for `__init__`; and `inference/tasks.py:763` reads `self.z_start` of a task that stores only `z_range`.
- Aligner.BacktrackOnce: records in its log which backup sections supplied the data; the source logs nothing. It also reads the backup section before testing whether the current one is missing, where the source reads it only after that test; the result is the same because reads have no effect in the model.
- `make_range` appears identically in `inference/align_blocks.py`, `inference/new_align_blocks.py` and `inference/render.py`, and is modelled once as `Partition.MakeRange`.
- The other tasks that write completion files (`BatchRenderTask`, `DownsampleTask`, `RenderCVTask`, `RenderLowMipTask`, at `inference/tasks.py:601`, `621`, `697` and `727`) and the prediction and fold-detection tasks: their saves are I/O outside the modelled protocol.
- The transform of the training samples in `StackDataset` (augmentation, tensor conversion): the model keeps the pair of sections each item names.
- SerialAlignment.Chunks: assumes that every aligner call dispatches exactly `n_chunks` tasks, one marker each. The source computes `n_chunks` once (`inference/serial_block_alignment.py:125-128`), while each `copy`, `compute_field` and `render` call chunks its own box, and the render calls pass `render=True` (`inference/aligner.py:675` and `707`), which changes the processing chunk.
- SerialAlignment.ScriptWaitsMatch: "no wait blocks forever" holds only under the `Chunks` assumption and when the tasks write their markers; under `dry_run` the guarded tasks write none (`inference/tasks.py:327-341`, see `Tasks.ExecuteProtocol`), so a wait of a dry run would block.
- AlignSchedule.Dispatcher.Run: the dispatch log records only (phase, offset, section). The `KeyError`s that the task iterators raise while they are consumed are not modelled: `stitch_fields[bs - z]` and `{i: stitch_fields[i] for i in offsets}` (`inference/align_blocks.py:503` and `517`) for a stitch offset below `min_offset` (see Findings), and the reads of `starter_dst_lookup` and `bbox_lookup` (lines 344, 356 and 376).
- AlignSchedule.Dispatcher.Execute: states the order in which the local queue and the dry-run mock receive the tasks. With `a.distributed`, `execute` uploads the pieces through `ProcessPoolExecutor.map` (`inference/align_blocks.py:315-317`), so whole pieces can reach the queue in any order; only the order within one piece holds there.
- AlignSchedule.ScheduleInOrder: the phase order of the schedule is the order of sending; with `a.distributed` the pieces of one `execute` call can reach the queue in any order, and the queue waits, not the sending order, separate the phases.
- Render.SendRenders: with `a.distributed` the pieces are uploaded through `ProcessPoolExecutor.map` (`inference/render.py:107-109`), so the listed order holds only within each piece.

## Findings

| source | as written | input that shows it | evidently intended | confidence | as-written member | corrected member |
|---|---|---|---|---|---|---|
| inference/aligner_single.py:818-853 | a box that overhangs the stored mip-8 field below takes the first branch, whose destination slice runs to the box's upper end; when the box also overhangs above, the stored window stops at the field's end, and the two slices of line 853 differ in length (1152 against 1249 cells) | an x range at mip 8 of `[300, 1600)` over the field stored on `[351, 1503)` (offset 351, extent 1152) | clip both ends, and fill exactly the requested cells that are stored | not executed | AlignerSingle.AsWrittenOverhang | AlignerSingle.CorrectedPlanSound |
| inference/aligner_single.py:813-853 | a box wholly outside the stored field still takes the first or second branch, and Python's negative slice bounds then leave windows of different lengths | x range `[1600, 1700)` (no stored cell against the 3 cells `[0:-97]`) or `[100, 200)` (1001 stored cells `[0:-151]` against an empty destination) | a field of zeros for a box that meets no stored cell | not executed | AlignerSingle.AsWrittenOutside | AlignerSingle.CorrectedPlanSound |
| inference/aligner_single.py:475-508 | the crop `[mip_disp:-mip_disp]` with `mip_disp == 0` is `[0:-0]`, which is `[0:0]` in Python | `max_displacement < 2 ** mip`, for example `max_displacement = 2` at mip 2 | no crop when `mip_disp` is 0 | not executed | AlignerSingle.WarpCropEmpty | AlignerSingle.WarpCropAgrees |
| inference/align_blocks.py:220-288 | `stitch_fields` gets keys only in `range(min_offset, abs(min_offset) + 1)`, but a stitch walk records offsets down to `-block_size`; `StitchBroadcastCopy` then reads `stitch_fields[bs - z]` (line 503) for a missing key | `tgt_radius` 1 on sections 0 to 8 except 3 on section 5, section 6 skipped, blocks of 4 from 0 to 8: block 4 stitches 5, 7 and 8 at offsets -1, -3 and -4 while `min_offset` is -3, so `stitch_fields[-4]` raises `KeyError` | create a stitch field for every offset a stitch walk can record as well as for `offset_range` | not executed | AlignStitch.StitchFieldMissing | AlignStitch.StitchFieldsCover |
