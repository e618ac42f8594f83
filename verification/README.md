# Verified model of Arctic-Platform's batching, packing, wire and coordination core

This project states, in Dafny, what the hard parts of Arctic-Platform compute and proves that they
keep the promises their callers rely on. Tensors are sequences (or sequences of rows) over an
opaque element type; a Python exception is a value of a `Result` or error datatype; worker refs and
ranks are participants of a transition system.

`dafny verify dfyconfig.toml` checks everything. The modules:

- `PackSearch`, `PackChoice`, `GroupAssignment`, `PromptGroups`, `RowLpt`, `BalancedBatch`: assigning
  rows and whole prompt groups to data-parallel ranks. The explicit-stack backtracking search is proved
  equal, node count included, to a recursive depth-first search, which is sound and complete although
  it skips ranks that look like one it tried. What it finds is the first of all packings when ranks are
  compared by running cost and index, group by group. The cardinality-capped LPT keeps any two ranks
  within one row's cost.
- `TokenGroups`, `FirstFitBound`, `Packing`, `Windows`, `CallRoundTrip`, `LeftAlign`: token-budget
  microbatches and how close first-fit-decreasing comes to the fewest groups, packing rows into one
  variable-length call, padding, cutting into shard windows, and mapping pieces back to rows.
  `CallRoundTrip.RestoreThroughShards` composes the operations and states that the composition is the
  identity on real tokens, for every shard count.
- `WireTree`, `WireChunks`: the DSSST1 tree codec and byte chunker, as round trips with the exact
  condition under which they hold.
- `WeightSync`, `TrainingGate`: the weight-sync round counters and the training-op lock with its
  failure latch, over every interleaving.
- `ExpertLora`: the two gather paths of expert-parallel LoRA factors describe one global tensor, entry by
  entry.
- `OptionRegistry`: inheritance of option profiles, what every settled cell says on the profiles' own
  lists, and soundness of the coverage check.
- `Basics`: permutations, sums, loads, flattening, cutting into ranges and a stable insertion sort shared
  by the rest.

Five promises turned out to hold only under a condition, which is proved in both directions:

- A wire tree with a dotted key can lose a tensor, because two paths become one key. For any value with
  string keys the round trip holds exactly when no tensor sits under the placeholder key and every
  tensor can be read back from the last tensor written under its path (`WireTree.RoundTripIff`); for
  `{"a.b": x, "a": {"b": y}}` that is when `y` stands for `x` (`WireTree.DottedKeysClash`). For keys
  that are non-empty and dot-free it is when no top-level tensor sits under the placeholder key
  (`WireTree.RoundTrip`).
- The token-budget check of prompt groups looks at the input ids only. It bounds the cost of every group
  under every 0/1 mask exactly when the mask is not wider than the ids (`PromptGroups.CheckCoversMaskIff`);
  a mask of a given width keeps all groups within budget exactly when a full group of that width is
  (`PromptGroups.BudgetHoldsIff`). `BalancedBatch.WideMaskExceedsBudget` is a request that passes the
  check and exceeds its budget.
- Unpacking checks the widths of the row segments but not where they start. It gives every call's rows
  back exactly when the boundaries start at 0 (`Packing.UnpackRestoresIff`), as packing makes them.
- Row boundaries can be read back from a packed call's positions exactly when no packed row is empty
  (`CallRoundTrip.ReadBoundaries`); an empty row disappears.
- A weight-sync rank waits on its own round's future exactly when it enters after the previous
  round's reset (`WeightSync.OwnFutureIffOnTime`). Nothing in the coordinator enforces that;
  `WeightSync.EarlyEntryBreaksCounters` is a run of two ranks in which it fails.

## Model

| member | source | states |
|---|---|---|
| `PackSearch.Candidates` | arctic_platform/common/utils/balanced_batch.py:220-229 | the candidate loop with its set of tried states lists ranks with room in ascending (cost, rank) order, no two in one (rows, cost) state, and for every rank with room one in its state that is not higher |
| `PackSearch.CandidatesAreListed` | arctic_platform/common/utils/balanced_batch.py:220-229 | those four facts about the list, for any rows, costs, size and cap |
| `PackSearch.CandidatesRepresent` | arctic_platform/common/utils/balanced_batch.py:223-228 | every rank with room for the group has a listed rank in the same (rows, cost) state |
| `PackSearch.Take` | arctic_platform/common/utils/balanced_batch.py:239-245 | placing a group and pushing its frame leaves exactly the search that remained from that choice on, less the node a later choice costs |
| `PackSearch.Undo` | arctic_platform/common/utils/balanced_batch.py:248-252 | popping a frame restores the earlier rows, costs and placements, so what remains after a dead end is the later choices of that position and then the rest of the stack |
| `PackSearch.PopToNextChoice` | arctic_platform/common/utils/balanced_batch.py:247-268 | the inner loop either resumes with the same total work left, or ends only when the whole search has failed within the budget, or stops at exactly the budget when the search needs more |
| `PackSearch.PackGroups` | arctic_platform/common/utils/balanced_batch.py:200-268 | the iterative search returns what the recursive search finds, `None` when it finds nothing, and the budget error, with exactly 100000 nodes, precisely when the recursive search needs more nodes than that; `PackChoice.FoundPacking` says which packing that is |
| `PackSearch.ExploreSound` | arctic_platform/common/utils/balanced_batch.py:225-245 | whatever the search finds places every group without passing the cap at any moment |
| `PackSearch.SwapFits` | arctic_platform/common/utils/balanced_batch.py:207-208 | exchanging two ranks everywhere turns a fitting placement into a fitting placement: equal ranks are interchangeable |
| `PackSearch.ExploreComplete` | arctic_platform/common/utils/balanced_batch.py:220-268 | if the pruned search finds nothing, then no assignment whatever of the remaining groups to ranks fits |
| `PackSearch.FitsIffPacks` | arctic_platform/common/utils/balanced_batch.py:225-245 | placing in the search order step by step within the cap is possible for an assignment exactly when each rank's total of whole groups is within the cap |
| `PackSearch.OutcomeMeaning` | arctic_platform/common/utils/balanced_batch.py:200-268 | the search finds something exactly when some assignment of whole groups respects the cap, and then its map has every group as a key and is such an assignment |
| `PackChoice.FoundIsFirst` | arctic_platform/common/utils/balanced_batch.py:220-268 | at every position the search ends on the first rank, by (cost, rank), below which the remaining groups fit |
| `PackChoice.FoundIsGreedy` | arctic_platform/common/utils/balanced_batch.py:220-245 | if it took one node per group, every group is on the cheapest rank that had room, the lowest of equals |
| `PackChoice.RunningTotals` | arctic_platform/common/utils/balanced_batch.py:239-241 | the running rows and cost of a rank are the totals of the groups placed on it so far |
| `PackChoice.NoFitBefore` | arctic_platform/common/utils/balanced_batch.py:220-268 | another placement that fits and first differs at some position uses there a rank that comes later by (cost, rank) |
| `PackChoice.FoundPacking` | arctic_platform/common/utils/balanced_batch.py:200-268 | over all packings, by group: where another one first differs, in search order, it uses a rank that has cost more so far, or as much and is higher; and with one node per group each group is on the cheapest rank with room |
| `GroupAssignment.OversizeDoesNotFit` | arctic_platform/common/utils/balanced_batch.py:302-308 | a group larger than the cap rules out every packing |
| `GroupAssignment.EqualSizesDoNotFit` | arctic_platform/common/utils/balanced_batch.py:309-316 | the equal-size shortcut fires only when no packing exists |
| `GroupAssignment.SearchOrderIsLargestFirst` | arctic_platform/common/utils/balanced_batch.py:301 | the groups are tried by descending size, then descending cost, then ascending index |
| `GroupAssignment.PackingIsExact` | arctic_platform/common/utils/balanced_batch.py:300-332 | when the groups hold shards times cap rows, every packing fills every rank exactly |
| `GroupAssignment.GroupStaysWhole` | arctic_platform/common/utils/balanced_batch.py:329-332 | each group is one slice of its rank's bin, rows in the given order, right behind the groups placed there before it |
| `GroupAssignment.FillBins` | arctic_platform/common/utils/balanced_batch.py:329-332 | the bins hold exactly the rows of the groups, each rank its own groups in placement order |
| `GroupAssignment.SearchPacking` | arctic_platform/common/utils/balanced_batch.py:318-327 | the three outcomes of the search, and of all packings the best one when it finds one |
| `GroupAssignment.PackWholeGroups` | arctic_platform/common/utils/balanced_batch.py:300-332 | bins exactly when a packing exists and the search finishes within its budget, and then the first of all packings by running cost, greedy if nothing was undone, with the groups of a rank end to end in search order; the oversize error exactly when some group exceeds the cap; "do not fit" only when no packing exists, and always in the equal-size shortcut case; the budget error only outside both, when the search needs more nodes |
| `GroupAssignment.AssignZorroGroups` | arctic_platform/common/utils/balanced_batch.py:271-332 | each input error in the order it is checked, arrival order for at most one row per rank, and otherwise the decision above, with bins that permute all rows, have `tensor_split` sizes and split no group |
| `RowLpt.SplitSizesSum` | arctic_platform/common/utils/balanced_batch.py:170-175 | the rank capacities add up to the number of rows |
| `Basics.HeaviestOrderSorts` | arctic_platform/common/utils/balanced_batch.py:169 | all rows by descending cost, ties in row order |
| `RowLpt.BestRankIsCheapest` | arctic_platform/common/utils/balanced_batch.py:179-182 | the chosen rank has the least load among ranks below capacity, the lowest index among equals |
| `RowLpt.PlacementStep` | arctic_platform/common/utils/balanced_batch.py:178-184 | each step of the greedy run appends the next row to the open rank with the least cost, the lowest of equals, and changes no other rank |
| `RowLpt.OpenRankExists` | arctic_platform/common/utils/balanced_batch.py:179-181 | while rows remain some rank is below capacity, so the "unable to assign" error cannot occur |
| `RowLpt.PlaceKeepsPrefixBalance` | arctic_platform/common/utils/balanced_batch.py:178-184 | one greedy step keeps: the load of any rank's first p+1 rows exceeds the load of any other rank's first p rows by at most the largest cost |
| `RowLpt.PlaceKeepsLead` | arctic_platform/common/utils/balanced_batch.py:178-184 | one greedy step keeps the companion invariant on ranks that are still open |
| `RowLpt.PlacementHolds` | arctic_platform/common/utils/balanced_batch.py:178-184 | after k steps the bins hold exactly the k most expensive rows, within the capacities |
| `RowLpt.LptBalance` | arctic_platform/common/utils/balanced_batch.py:155-187 | for non-negative costs any two ranks' final loads differ by at most the largest single cost, although their capacities may differ by one |
| `RowLpt.Greedy` | arctic_platform/common/utils/balanced_batch.py:176-184 | the assignment loop, with its running rank costs, never fails and computes the greedy placement |
| `RowLpt.AssignRowLpt` | arctic_platform/common/utils/balanced_batch.py:155-187 | both argument errors; otherwise success with a permutation of the rows in `tensor_split` sizes, each bin the sorted greedy bin, balanced to within one row for non-negative costs |
| `PromptGroups.GroupByKey` | arctic_platform/common/utils/balanced_batch.py:98-101 | the dictionary loop gives one group per key in first-seen order, rows ascending |
| `PromptGroups.GroupsPartition` | arctic_platform/common/utils/balanced_batch.py:88-101 | those groups are non-empty and partition the rows |
| `PromptGroups.SameGroupIffSameKey` | arctic_platform/common/utils/balanced_batch.py:357-364 | two rows share a group exactly when their ids, or their prompt columns, are equal |
| `PromptGroups.GroupsInOrder` | arctic_platform/common/utils/balanced_batch.py:98-101 | rows ascend in every group, and the groups come in the order of their first rows |
| `PromptGroups.RowsPerPromptMeaning` | arctic_platform/common/utils/balanced_batch.py:357-364 | two rows share a group exactly when their ids are equal, if there is one id per row, and otherwise when their prompt columns are; the groups come in first-row order |
| `PromptGroups.SplitKeepsRows` | arctic_platform/common/utils/balanced_batch.py:414-421 | splitting keeps the row order across all groups, leaves none over the limit and empties none |
| `PromptGroups.ChunkOfGroup` | arctic_platform/common/utils/balanced_batch.py:414-421 | chunk c of a group is its rows from c times the limit to the next multiple, behind all chunks of the groups before it |
| `PromptGroups.SplitToMaxLength` | arctic_platform/common/utils/balanced_batch.py:392-421 | unchanged groups without a positive limit, the token-budget error exactly when a full group may exceed the budget, and otherwise the chunked groups, the early return included |
| `PromptGroups.PromptGroupsPartition` | arctic_platform/common/utils/balanced_batch.py:335-371 | every successful answer partitions the rows into non-empty groups |
| `PromptGroups.PromptGroupsInBudget` | arctic_platform/common/utils/balanced_batch.py:335-371 | with a positive limit no group of a successful answer is longer than it, and a full group's tokens are within the budget |
| `PromptGroups.PromptGroupRows` | arctic_platform/common/utils/balanced_batch.py:335-371 | the operation gives that answer: the width error, grouping by id only when there is one id per row, by prompt columns otherwise |
| `PromptGroups.CostWithinBudget` | arctic_platform/common/utils/balanced_batch.py:374-389 | under a 0/1 mask a group within the limit costs at most the budget, when a full group at the mask's width is within it |
| `PromptGroups.BudgetHoldsIff` | arctic_platform/common/utils/balanced_batch.py:374-421 | all groups up to the limit are within budget under every 0/1 mask of a width, if and only if a full group of that width is |
| `PromptGroups.CheckCoversMaskIff` | arctic_platform/common/utils/balanced_batch.py:402-411 | the token-budget check, made at the width of the ids, implies that bound for a mask if and only if the mask is not wider |
| `PromptGroups.DedupSavesPrompts` | arctic_platform/common/utils/balanced_batch.py:374-389 | the cost of any group plus the prompt tokens of all rows but its first is all tokens of its rows |
| `PromptGroups.RowTokensCount` | arctic_platform/common/utils/balanced_batch.py:113-118 | the length of a row under a 0/1 mask is the number of columns it keeps |
| `PromptGroups.CostCountsPromptOnce` | arctic_platform/common/utils/balanced_batch.py:374-389 | when rows share their prompt mask, the cost is all their tokens less every repeated prompt |
| `PromptGroups.LinearDedupCosts` | arctic_platform/common/utils/balanced_batch.py:374-389 | the width error, an index error for an empty group or a row the mask lacks, otherwise each group's deduplicated cost |
| `BalancedBatch.AssignWholeGroups` | arctic_platform/common/utils/balanced_batch.py:71-85 | an assignment exactly when there is one id per row, the batch divides over fewer ranks than rows, the groups pack and the search finds it within budget; arrival order in every other case |
| `BalancedBatch.CostedGroups` | arctic_platform/common/utils/balanced_batch.py:143-151 | the prompt groups paired with their costs or the first error; with a positive limit and a 0/1 mask every cost is within the token budget, if the mask is not wider than the ids or a full group at its width is within budget |
| `BalancedBatch.WideMaskExceedsBudget` | arctic_platform/common/utils/balanced_batch.py:143-151 | one row of ids of width 1 with a mask of width 2 passes the check of budget 1 and costs 2 |
| `BalancedBatch.AssignPromptGroups` | arctic_platform/common/utils/balanced_batch.py:121-152 | the metadata, tensor, grouping and mask errors in the order they are raised, the rollout limit being `zorro_train_max_rollouts` if present and `rollout_n` otherwise; then the packing decision for those groups and costs, shaped like the data-parallel cut |
| `BalancedBatch.AssignByLengths` | arctic_platform/common/utils/balanced_batch.py:60-68 | arrival order without lengths or with fewer rows than ranks; otherwise the LPT bins on squared lengths, balanced to within one row, or the whole-group answer when ids are given |
| `BalancedBatch.AssignBalancedBatch` | arctic_platform/common/utils/balanced_batch.py:30-68 | which branch answers for every request, the caller's lengths before the mask's and the batch's ids before the metadata's, and on every path an assignment permutes all rows in `tensor_split` sizes |
| `TokenGroups.FirstFitIsFirst` | arctic_platform/common/packing/groups.py:140-147 | the row joins the first group with room, and every earlier group lacks it |
| `TokenGroups.PlanIsSound` | arctic_platform/common/packing/groups.py:137-147 | at every step groups are non-empty, within budget or a single row, and each was opened only when no earlier group had room for its first row |
| `TokenGroups.PlanContent` | arctic_platform/common/packing/groups.py:139-147 | after k rows the groups hold exactly those k rows |
| `TokenGroups.FirstFitDecreasing` | arctic_platform/common/packing/groups.py:137-147 | the nested loops with their running loads compute that plan |
| `TokenGroups.SortGroupsAscend` | arctic_platform/common/packing/groups.py:148 | the returned plan has ascending rows inside groups and groups ordered by first row |
| `TokenGroups.TokenBudgetGroups` | arctic_platform/common/packing/groups.py:125-148 | the budget error exactly for non-positive budgets; otherwise the sorted first-fit-decreasing plan, a partition into non-empty ascending groups, each within budget or one row, any two together over budget |
| `TokenGroups.HalfTheGroupsAreFull` | arctic_platform/common/packing/groups.py:125-148 | with G >= 2 groups, floor(G/2) times the budget is below the total token count |
| `TokenGroups.FewerThanTwiceOptimal` | arctic_platform/common/packing/groups.py:125-148 | G <= 2 * H - 1 for every other plan of H within-budget groups of the same rows |
| `FirstFitBound.PlanLeads` | arctic_platform/common/packing/groups.py:139-147 | placing longest first keeps: no row of a later group fits into an earlier one, and a group's first row is the longest of it and of all later groups |
| `FirstFitBound.BigFirstRowsNeedGroups` | arctic_platform/common/packing/groups.py:125-148 | if the first j groups start with rows over half the budget, every within-budget plan has at least j groups |
| `FirstFitBound.ShortTailNeedsGroups` | arctic_platform/common/packing/groups.py:125-148 | if group c of G starts with a row of at most half the budget and 3c < 2G, every within-budget plan has more than c groups |
| `FirstFitBound.WithinThreeHalvesOfOptimal` | arctic_platform/common/packing/groups.py:125-148 | the returned plan has at most one and a half times the groups of any within-budget plan of the same rows |
| `TokenGroups.WidestIsWidest` | arctic_platform/common/packing/groups.py:179-182 | the split source holds the most tokens among groups of more than one row, and is the first that does |
| `TokenGroups.SplitToRefines` | arctic_platform/common/packing/groups.py:177-185 | splitting ends with min(target, rows) groups, each a part of an original group, holding the same rows |
| `TokenGroups.SplitToIsChain` | arctic_platform/common/packing/groups.py:177-185 | splitting is a chain of steps, in each of which the first group with most tokens among those of more than one row gives up its first longest row, which becomes a group of its own, and no other group changes |
| `TokenGroups.RefinedWithinBudget` | arctic_platform/common/packing/groups.py:169-171 | any refinement of a within-budget plan is within budget |
| `TokenGroups.SplitGroupsToCount` | arctic_platform/common/packing/groups.py:159-186 | the reduce error below the current count; otherwise the sorted end of a chain of such steps from the input, which stops at the target or when every group is one row; exactly min(target, rows) groups refining the input with the same rows |
| `TokenGroups.MicrobatchGroups` | arctic_platform/common/packing/groups.py:189-212 | never the partition error: the first-fit-decreasing plan itself when it has enough groups, otherwise the sorted end of a chain of split steps from it, with exactly min(requested, rows) groups; an ascending within-budget partition in both cases |
| `TokenGroups.InverseOrder` | arctic_platform/common/packing/groups.py:232-234 | the restore order is the inverse permutation of the forward order |
| `TokenGroups.SplitMicrobatches` | arctic_platform/common/packing/groups.py:215-235 | the error exactly for non-partitions; otherwise one batch per group of its size, and concatenating the batches and applying the restore order gives back the rows |
| `Packing.PackedTokenIndexAt` | arctic_platform/common/packing/pack.py:67-84 | the packed position of row r's k-th token maps to flat position r * S + k |
| `Packing.IndexInjective` | arctic_platform/common/packing/pack.py:67-84 | no two packed tokens share a flat position |
| `Packing.IndexSelectPacks` | arctic_platform/common/packing/pack.py:138-140 | selecting through that index is in bounds and yields the rows' valid prefixes in order |
| `Packing.BroadcastPacks` | arctic_platform/common/packing/pack.py:136-137 | a per-row value is repeated once per valid token of its row, aligned with the packed tokens |
| `Packing.PackLeaf` | arctic_platform/common/packing/pack.py:131-141 | a per-token leaf becomes its rows' valid prefixes, a broadcast leaf its values spread over them, and a leaf of any other shape is carried through |
| `Packing.PackMicrobatch` | arctic_platform/common/packing/pack.py:87-151 | the three errors exactly; otherwise the leaf and the positions packed in row order, and metadata with their lengths, prefix sums and total |
| `Packing.PadPacked` | arctic_platform/common/packing/pack.py:154-185 | error exactly for a non-positive multiple; otherwise a width divisible by it with fewer than `multiple` pads at the tail, positions padded with 0, and leaves of another width carried through |
| `Packing.IndexCopy` | arctic_platform/common/packing/pack.py:222 | the in-place copy writes exactly the indexed tokens into the buffer, or reports a bad index or short input |
| `Packing.CopiedRestores` | arctic_platform/common/packing/pack.py:203-223 | after copying into a padded buffer each row holds its tokens and then the pad value |
| `Packing.UnpackOutput` | arctic_platform/common/packing/pack.py:188-223 | each error exactly, in order, a scatter that leaves the buffer included; otherwise the scattered buffer as rows, which for boundaries counted from 0 are each row's tokens and then pads, tail padding dropped |
| `Packing.IndexShifts` | arctic_platform/common/packing/pack.py:78-84 | boundaries that start at c send every token c places too early |
| `Packing.UnpackRestoresIff` | arctic_platform/common/packing/pack.py:209-223 | metadata that passes the checks gives the rows of every call back if and only if its boundaries start at 0 |
| `Windows.TokenWindow` | arctic_platform/common/packing/windows.py:30-43 | succeeds exactly for a valid shard of a divisible width, and the window lies inside the call |
| `Windows.ShardWindowsTile` | arctic_platform/common/packing/windows.py:30-43 | the windows of all shards tile the call without gap or overlap |
| `Windows.ShardsConcatenate` | arctic_platform/common/packing/windows.py:46-73 | concatenating the shards in index order gives back the padded call, for every shard count |
| `Windows.OverlapsRebuild` | arctic_platform/common/packing/windows.py:121-158 | the overlaps of any range with tiling windows concatenate to that range |
| `Windows.WindowRowPieces` | arctic_platform/common/packing/windows.py:121-158 | an error exactly for a bad window or a wrong token count; otherwise one piece per row, its overlap with the window |
| `Windows.PiecesRebuildRow` | arctic_platform/common/packing/windows.py:129-131 | a row's pieces over all shards concatenate to that row's valid prefix |
| `Windows.PiecesAgreeWithUnpack` | arctic_platform/common/packing/windows.py:121-158 | the pieces of a row over all shards join to its valid prefix, and with pads appended to the row that unpacking the whole call restores |
| `CallRoundTrip.PackAndPad` | arctic_platform/common/packing/pack.py:87-185 | packing a left-aligned batch and padding it gives a call that starts with the valid tokens, has consistent metadata and divides into the shards |
| `CallRoundTrip.ShardPieces` | arctic_platform/common/packing/windows.py:46-158 | every shard's window of that call, cut at the row boundaries, holds each row's part of the window |
| `CallRoundTrip.RestoreThroughShards` | arctic_platform/common/packing/__init__.py:28-46 | pack, pad, shard, cut and join: for every shard count each rebuilt row is the original valid prefix, and unpacking the padded call gives that row and then pads |
| `Windows.WindowCuSeqlens` | arctic_platform/common/packing/windows.py:76-97 | fails exactly for a bad window or without boundaries; otherwise the boundaries clamped into the window with the last at its end, and for boundaries counted from 0 one ascending segment per row, the row's part of the window with tail padding in the last |
| `Windows.SegmentSumsAreExact` | arctic_platform/common/packing/windows.py:83-91 | with zero-weight pads, summing a row's segments over all shards gives the row's full sum |
| `Windows.PositionsGiveNonEmptyRows` | arctic_platform/common/packing/windows.py:100-118 | boundaries read from positions are those of the non-empty rows |
| `Windows.PositionsRecoverBoundaries` | arctic_platform/common/packing/windows.py:100-118 | positions that count each row from 0, followed by zeros, give the row boundaries plus one per zero, if and only if every row is non-empty |
| `Windows.PackedPositions` | arctic_platform/common/packing/pack.py:138-140 | packing positions that count each row from 0 gives those counts, one row after the other |
| `CallRoundTrip.ReadBoundaries` | arctic_platform/common/packing/windows.py:100-118 | for a packed and padded call the reading is its boundaries plus one per pad token, if and only if no row is empty, and otherwise the boundaries of the non-empty rows |
| `Windows.PadBoundaries` | arctic_platform/common/packing/windows.py:108-109 | each pad token is a segment of its own after the last row |
| `LeftAlign.SortIsPartition` | arctic_platform/integrations/_cortex_shared.py:96 | the stable sort on validity is the real columns in order and then the pad columns in order |
| `LeftAlign.MoveRowIsMaskedIn` | arctic_platform/integrations/_cortex_shared.py:98-102 | a moved row is its masked-in entries followed by the pad value |
| `LeftAlign.AlignedRow` | arctic_platform/integrations/_cortex_shared.py:66-108 | an aligned batch stays as it is; otherwise every row of a full-width tensor becomes its masked-in entries, then -100 in `labels` and 0 elsewhere |
| `LeftAlign.AlignedMaskPacks` | arctic_platform/integrations/_cortex_shared.py:86-108 | for every mask the returned mask passes the packer's prefix check, with unchanged row lengths |
| `LeftAlign.AlignThenPack` | arctic_platform/integrations/_cortex_shared.py:71-108 | packing any full-width tensor after alignment yields its originally masked-in entries in row order, so all tensors stay paired token by token |
| `WireTree.Encoder.Encode` | arctic_platform/wire.py:115-145 | fails exactly when a dict on a tensor-bearing path has a non-string key; otherwise returns the node tree and adds to the dictionary exactly the tensors of the value under their paths |
| `WireTree.Encoder.EncodeKids` | arctic_platform/wire.py:132-144 | the same for the children of a container, in order |
| `WireTree.DecodeIff` | arctic_platform/wire.py:160-175 | decoding an encoded value with a tensor map returns the value, normalised by JSON inside tensor-free parts, if and only if every leaf's key yields that leaf's tensor |
| `WireTree.Dumps` | arctic_platform/wire.py:148-157 | the frame holds the tree and the tensors, with the placeholder only when there is no tensor |
| `WireTree.RoundTripIff` | arctic_platform/wire.py:148-215 | the round trip of any string-keyed value holds if and only if no leaf has the placeholder key and every leaf can be read back from the last leaf written under its key: equal data for a 0-d tensor, an equal tensor otherwise |
| `WireTree.DottedKeysClash` | arctic_platform/wire.py:136 | a value with keys `a.b` and `a`, the latter with a child `b`, comes back if and only if the tensor written last stands for the first |
| `WireTree.ClashExamples` | arctic_platform/wire.py:118-127 | other data and other shapes are lost, a 0-d tensor survives under a one-element matrix of the same number |
| `WireTree.PathsAreDistinct` | arctic_platform/wire.py:136-144 | with non-empty dot-free keys no two tensors of a value get the same path |
| `WireTree.DistinctPathsRoundTrip` | arctic_platform/wire.py:148-215 | with distinct paths the round trip holds if and only if no path is the placeholder key |
| `WireTree.RoundTrip` | arctic_platform/wire.py:148-215 | with non-empty dot-free keys the round trip, 0-d tensors and tuples included, holds if and only if the value is not a dict with a tensor directly under the placeholder key |
| `WireTree.SameValueBack` | arctic_platform/wire.py:148-215 | and if JSON keeps the tensor-free parts, the very value comes back: keys in order, lists as lists, tuples as tuples |
| `Basics.CutJoins` | arctic_platform/wire.py:343-345 | the byte ranges join to the frame and none exceeds the payload size |
| `Basics.CutAt` | arctic_platform/wire.py:343-345 | there are ceil(length / size) ranges, one for the empty frame, and range i runs from i * size to the lesser of (i + 1) * size and the length |
| `WireChunks.ChosenSize` | arctic_platform/wire.py:341-365 | the halving ends: at a size whose chunks all fit, or at one byte with a chunk that still does not fit |
| `WireChunks.ChosenSizeIsFirst` | arctic_platform/wire.py:341-365 | the halving stops at the first size of max_bytes less the overhead, halved 0, 1, 2, ... times, at which every chunk fits, and fails exactly when none does |
| `WireChunks.EncodeByteChunks` | arctic_platform/wire.py:290-365 | the frame itself when it fits and each error exactly; otherwise ceil(length / size) chunks, chunk i carrying bytes i * size to (i + 1) * size under a descriptor with its index, the count, the digest and length of the frame, the operation and, for a request, the given or a fresh group id; size is the first fitting one of the halving sequence; with a positive limit every returned chunk is within it |
| `WireChunks.CollectPairs` | arctic_platform/wire.py:406-428 | succeeds exactly when all chunks agree with the first, have distinct indices in range and a payload, and returns them with the set of seen indices; otherwise the first problem of the first bad chunk, in the order the fields are compared |
| `WireChunks.IndicesCover` | arctic_platform/wire.py:403-432 | chunks that pass have indices exactly 0..total-1 |
| `WireChunks.SeenIsAll` | arctic_platform/wire.py:430-432 | hence the missing-chunk error is unreachable |
| `WireChunks.DecodeByteChunks` | arctic_platform/wire.py:382-439 | every error in the order it is checked; succeeds on described chunks exactly when kind, count, consistency, declared length and digest hold, and returns the payloads in index order; a lone plain frame is returned as it is |
| `WireChunks.ChunksRoundTrip` | arctic_platform/wire.py:341-439 | any permutation of a frame's chunks reassembles to the frame, with or without the kind given |
| `WireChunks.SendAndReceive` | arctic_platform/wire.py:290-439 | encode, deliver in any order, decode: whatever the encoder answers comes back as the frame, if a frame that goes out whole carries no chunk descriptor of its own |
| `WeightSync.Coordinator.constructor` | arctic_platform/rl/weight_sync.py:76-81 | counters at zero, no future |
| `WeightSync.Coordinator.Enter` | arctic_platform/rl/weight_sync.py:157-167 | the first locked section: one more arrival, a submission only by the first, and the shared future handed out |
| `WeightSync.Coordinator.Leave` | arctic_platform/rl/weight_sync.py:172-178 | the second locked section: one more finisher, and a full reset by the last |
| `WeightSync.StepKeepsInv` | arctic_platform/rl/weight_sync.py:157-178 | every on-time step of any rank, a raising send included, keeps the round invariant tying the counters to the ranks' states |
| `WeightSync.LastLeaveResets` | arctic_platform/rl/weight_sync.py:172-178 | the last finisher returns the coordinator to its initial state with one submission per completed round and every rank idle |
| `WeightSync.EveryRunIsSafe` | arctic_platform/rl/weight_sync.py:157-178 | in every on-time run done <= arrive <= n_active, each started round has submitted exactly once, every waiting rank holds its own round's future, and no rank is more than one round ahead |
| `WeightSync.OwnFutureIffOnTime` | arctic_platform/rl/weight_sync.py:157-167 | entering gives a rank its own round's future if and only if the previous round has been reset |
| `WeightSync.EarlyEntryBreaksCounters` | arctic_platform/rl/weight_sync.py:157-178 | two ranks in round 0, every step enabled: rank 0 returns and enters again before rank 1 has left, so arrivals pass n_active and its second call holds round 0's future |
| `TrainingGate.Gate.MarkFailed` | arctic_platform/common/ray_server.py:801-804 | the latch is set and keeps its first cause |
| `TrainingGate.Gate.FinishAwait` | arctic_platform/common/ray_server.py:840-861 | leaving the await: the outcome for success, worker error and cancellation, the latch set exactly when it latches and was interrupted or left a ref running, and every running ref asked to cancel |
| `TrainingGate.StepKeepsInv` | arctic_platform/common/ray_server.py:867-876 | every step of any operation, worker or cancelled caller keeps: only the lock holder awaits, and refs outstanding without it imply the latch |
| `TrainingGate.LatchIsSticky` | arctic_platform/common/ray_server.py:801-804 | no step clears a set latch or changes its cause |
| `TrainingGate.ReleaseIsCovered` | arctic_platform/common/ray_server.py:840-861 | whenever the lock is released, every ref has finished or the latch is set; interruption always sets it, with a cancellation as the cause if it was clear; otherwise its cause is a worker's error while another ref ran |
| `TrainingGate.SubmitsOnlyWhenClear` | arctic_platform/common/ray_server.py:873-876 | refs are submitted only with the latch clear, the lock free and no ref of any operation outstanding |
| `TrainingGate.StepKeepsOneOutstanding` | arctic_platform/common/ray_server.py:867-876 | no step leaves a second operation with refs outstanding |
| `TrainingGate.NeverTwoOutstanding` | arctic_platform/common/ray_server.py:867-876 | in no run do two operations have refs outstanding at once, whether or not the latch is set |
| `TrainingGate.NothingSubmitsAfterFailure` | arctic_platform/common/ray_server.py:776-780 | once set, the latch stays as it is for the rest of the run and no operation submits again |
| `ExpertLora.OffsetUnravel` | arctic_platform/model/weight_export.py:536-542 | flat offsets and index triples of a row-major view correspond one to one |
| `ExpertLora.PermuteAt` | arctic_platform/model/weight_export.py:542 | the permuted tensor has the entry of the rotated index |
| `ExpertLora.CatLeadingAt` | arctic_platform/model/weight_export.py:635 | stacking reshaped shards puts shard s's expert y at global expert s * experts + y |
| `ExpertLora.CatInnerAt` | arctic_platform/model/weight_export.py:347 | concatenating on the innermost axis puts shard s's column y at s * experts + y |
| `ExpertLora.ReshapeEntryA` | arctic_platform/model/weight_export.py:536-539 | a reshaped A factor has dimensions (rows / r, r, cols), and entry (e, p, c) is local entry (e * r + p, c) |
| `ExpertLora.ReshapeEntryB` | arctic_platform/model/weight_export.py:540-542 | a reshaped B factor has dimensions (cols / r, rows, r), and entry (e, o, p) is local entry (o, p * (cols / r) + e) |
| `ExpertLora.PathsAgreeA` | arctic_platform/model/weight_export.py:338-347 | for any number of shards, reshaping the gathered A factor equals stacking the reshaped shards: dimensions (shards * experts, r, cols), and entry (s * experts + e, p, c) is entry (e * r + p, c) of shard s |
| `ExpertLora.PathsAgreeB` | arctic_platform/model/weight_export.py:338-347 | the same for the interleaved B factor: dimensions (shards * experts, rows, r), and entry (s * experts + e, o, p) is entry (o, p * experts + e) of shard s |
| `OptionRegistry.Chain` | arctic_platform/common/option_registry.py:262-278 | ends on cyclic inheritance too: the climb from the profile through registered bases, no name twice, root first, up to a profile without a base, or with the unregistered or already passed base that cut it |
| `OptionRegistry.OwnCells` | arctic_platform/common/option_registry.py:281-298 | exactly the registered keys that the profile mentions have a cell, which is the one its lists say: supported before unsupported before not applicable by name before not applicable by wildcard |
| `OptionRegistry.LastWriterWins` | arctic_platform/common/option_registry.py:281-298 | a registered key has a cell exactly when some line settles it, and the cell is the last such line's |
| `OptionRegistry.OwnCellMeaning` | arctic_platform/common/option_registry.py:281-298 | if no key is settled twice, the cell of a key is that of the unique line settling it |
| `OptionRegistry.OwnCellOnLists` | arctic_platform/common/option_registry.py:281-298 | the same for each key, with the status and reason of every list |
| `OptionRegistry.SettleChain` | arctic_platform/common/option_registry.py:301-305 | the cells of each member written over those of the members before it |
| `OptionRegistry.Settle` | arctic_platform/common/option_registry.py:308-322 | the unknown-profile error exactly; otherwise the climb and why it broke, or the table in which exactly the options that some member mentions have a cell, given by the lists of the nearest such member; for a clean registry every option has one: supported iff that member lists it, unsupported with reason x iff it lists the key with x, not applicable with x iff a name or matching wildcard carries x |
| `OptionRegistry.NearestSettles` | arctic_platform/common/option_registry.py:301-305 | a key is settled exactly when some member settles it, with the cell of the nearest such member |
| `OptionRegistry.SettledIsTable` | arctic_platform/common/option_registry.py:301-305 | settling a chain gives that table, for any lists |
| `OptionRegistry.ProfileProblems` | arctic_platform/common/option_registry.py:336-380 | no problem is reported if and only if every line is well formed, no key is settled twice, the chain is whole and every option is settled |
| `OptionRegistry.CheckCoverage` | arctic_platform/common/option_registry.py:383-416 | the report is empty if and only if every registered profile is clean and the matrix file, if one is configured, exists and equals the rendering |
| `OptionRegistry.CoverageIsSound` | arctic_platform/common/option_registry.py:383-394 | an empty report means that settling any registered profile does not fail, yields exactly the registered options, and takes each cell from the unique line of the nearest profile in the chain that settles it |
| `OptionRegistry.CleanTables` | arctic_platform/common/option_registry.py:383-394 | and each cell says what that profile lists for the key, status and reason, in both directions |

## Left out

- Floating point: group costs are reals and row costs integers; rounding is not modelled.
- Tensor types, devices, strides, singleton-axis squeezing and the walk over nested batch
  dictionaries: a batch is its mask, its positions and one more leaf, which is a matrix or a vector;
  dispatch on tensor-ness and number of dimensions becomes an optional argument.
- Deriving the validity mask from positions, and selecting rows of a whole batch dictionary: row
  lengths and one leaf are parameters.
- Packing.PackMicrobatch: masks are booleans, so integer masks with entries other than 0 and 1 are
  not modelled.
- LeftAlign.AlignThenPack: elements are integers, and a tensor of the mask's width is taken to have
  the mask's rows.
- JSON text, safetensors bytes, storage sharing between tensors and SHA-256: JSON is an arbitrary
  function on tensor-free values, one chunk frame an abstract lossless encoding, the digest an
  uninterpreted function, a new group id a parameter.
- WireTree.Dumps: values that JSON cannot represent, and the operation metadata, are not modelled.
- WireTree.DecodeIff: trees not produced by the encoder (unknown tags, repeated keys in a `d` node)
  are outside its statement.
- WireChunks.DecodeByteChunks: malformed descriptors (missing fields, values that are not integers) are
  not modelled.
- Reading frame headers and the refusal of pickle payloads.
- Weight senders, NCCL and HTTP: sending is a step that ends normally or raises. An update request
  that fails to submit inside the first locked section, and calls by ranks outside the active set,
  are not modelled.
- TrainingGate.StepKeepsInv: covers operations through `_gather_training_refs` whose refs are all
  awaitable; sampling refs (which do not latch) and saving after a failure are not in the transition
  system, and Ray and the event loop are abstract: code between two awaits is one step.
- ExpertLora.PathsAgreeB: `view(-1)` is given the expert count, so shards with no elements, for which
  it is ambiguous, use that count.
- OptionRegistry.ProfileProblems: wildcard matching and the wording rules for reasons are parameters,
  and the texts of problems are not modelled.
- OptionRegistry.CheckCoverage: the rendering is a parameter, and the sorting of the report is not
  modelled.
- Configuration models, request builders, profile tables, rendering, loss numerics and test utilities
  would only add one-branch members.
