/** The splitter entry point: arrival order, row lengths, or whole prompt groups
    (arctic_platform/common/utils/balanced_batch.py, assign_balanced_batch). */
module BalancedBatch {
  import opened Basics
  import opened PromptGroups
  import RowLpt
  import GroupAssignment
  import opened PackSearch

  datatype BatchError =
    | MissingMeta
    | MissingTensors
    | Prompt(prompt: PromptError)
    | Groups(group: GroupAssignment.GroupError)
    | Lpt(lpt: RowLpt.LptError)

  datatype BatchResult = KeepOrder | Assigned(bins: seq<seq<nat>>) | Error(error: BatchError)

  /** The request metadata the splitter reads. `Some(None)` is a value of the wrong kind: ids that are not a
      1-D tensor, and below a mask tensor that is not a matrix. */
  datatype Meta = Meta(
    balanceBatch: Option<bool>,
    zorro: bool,
    maxResponseLen: Option<int>,
    maxTokenLen: Option<int>,
    zorroMaxRollouts: Option<int>,
    rolloutN: Option<int>,
    promptGroupIds: Option<Option<seq<int>>>)

  function AsReals(costs: seq<int>): (r: seq<real>)
    ensures |r| == |costs| && forall i :: 0 <= i < |r| ==> r[i] == costs[i] as real
  {
    seq(|costs|, i requires 0 <= i < |costs| => costs[i] as real)
  }

  /** What each group weighs: its rows together. */
  function GroupLoads(costs: seq<int>, groups: seq<seq<nat>>): (loads: seq<int>)
    ensures |loads| == |groups| && forall g :: 0 <= g < |groups| ==> loads[g] == Load(costs, groups[g])
  {
    seq(|groups|, g requires 0 <= g < |groups| => Load(costs, groups[g]))
  }

  function FromGroups(a: GroupAssignment.Assignment): BatchResult {
    match a
    case KeepArrivalOrder => KeepOrder
    case Bins(bins) => Assigned(bins)
    case Failed(e) => Error(Groups(e))
  }

  ghost function ToGroups(r: BatchResult): GroupAssignment.Assignment
    requires r.Error? ==> r.error.Groups?
  {
    match r
    case KeepOrder => GroupAssignment.KeepArrivalOrder
    case Assigned(bins) => GroupAssignment.Bins(bins)
    case Error(e) => GroupAssignment.Failed(e.group)
  }

  /** Row costs: the squared lengths. */
  function SquaredCosts(lengths: seq<int>): (costs: seq<int>)
    ensures |costs| == |lengths| && forall i :: 0 <= i < |costs| ==> costs[i] == lengths[i] * lengths[i] >= 0
  {
    seq(|lengths|, i requires 0 <= i < |lengths| => lengths[i] * lengths[i])
  }

  /** An assignment covers all `n` rows once and lines up with the DP cut. */
  ghost predicate GoodShape(r: BatchResult, n: nat, numShards: int) {
    r.Assigned? ==> numShards >= 1 && RowLpt.ShapedLikeTensorSplit(r.bins, n, numShards)
  }

  /** Whole-group balancing: an assignment exactly when the groups pack into equal bins and the search
      finds that within its budget; arrival order otherwise. */
  ghost predicate WholeGroupsAnswer(costs: seq<int>, ids: Option<seq<int>>, numShards: int, r: BatchResult) {
    if ids.None? || |ids.value| != |costs| then r == KeepOrder
    else
      var n := |costs|;
      var groups := GroupsOf(ids.value, n);
      var loads := AsReals(GroupLoads(costs, groups));
      if !GroupAssignment.Packable(groups, loads, numShards, n) then r == KeepOrder
      else
        var cap := n / numShards;
        && (r.Assigned? <==>
              && GroupAssignment.HasPacking(groups, numShards, cap)
              && GroupAssignment.SearchTotal(groups, loads, numShards, cap).nodes <= PACK_NODE_BUDGET)
        && (r.Assigned? ==> GroupAssignment.DecidesPacking(groups, loads, numShards, n, GroupAssignment.Bins(r.bins)))
        && (!r.Assigned? ==> r == KeepOrder)
  }

  method AssignWholeGroups(costs: seq<int>, ids: Option<seq<int>>, numShards: int) returns (r: BatchResult)
    ensures WholeGroupsAnswer(costs, ids, numShards, r)
    ensures GoodShape(r, |costs|, numShards)
  {
    if ids.None? || |ids.value| != |costs| {
      return KeepOrder;
    }
    var groups := GroupByKey(ids.value);
    GroupsPartition(ids.value, |costs|);
    var loads := AsReals(GroupLoads(costs, groups));
    var packed := GroupAssignment.AssignZorroGroups(groups, loads, numShards, |costs|);
    r := if packed.Failed? then KeepOrder else FromGroups(packed);
  }

  /** Prompt groups with their deduplicated costs. No mask is one that is not a matrix. */
  ghost function CostedFrom(groups: Result<seq<seq<nat>>, PromptError>, mask: Option<Tensor2>, promptLen: int):
    (r: Result<(seq<seq<nat>>, seq<int>), PromptError>)
    requires mask.Some? ==> mask.value.Valid()
    requires groups.Ok? ==> promptLen >= 0
    ensures r.Ok? ==> groups == Ok(r.value.0) && |r.value.0| == |r.value.1|
  {
    if groups.Err? then Err(groups.error)
    else if mask.None? then Err(MaskNotMatrix)
    else if promptLen > mask.value.width then Err(PromptOutsideWidth)
    else if !RowsInMask(mask.value, groups.value) then Err(RowIndexError)
    else Ok((groups.value, DedupCosts(mask.value, groups.value, promptLen)))
  }

  /** The prompt groups of a ZoRRo request with their deduplicated costs. */
  ghost function Costed(
      inputIds: Tensor2, mask: Option<Tensor2>, responseLen: int, maxTokenLen: int, maxGroup: int,
      ids: Option<seq<int>>):
    (r: Result<(seq<seq<nat>>, seq<int>), PromptError>)
    requires inputIds.Valid() && (mask.Some? ==> mask.value.Valid())
  {
    CostedFrom(PromptGroupsOf(inputIds, responseLen, maxTokenLen, Some(maxGroup), ids), mask,
        inputIds.width - responseLen)
  }

  ghost predicate AllWithin(costs: seq<int>, budget: int) {
    forall g :: 0 <= g < |costs| ==> costs[g] <= budget
  }

  /** When the budget bound holds: a full group at the mask's width is within budget, which the token-budget
      check guarantees for masks no wider than the input ids. */
  ghost predicate MaskInBudget(mask: Tensor2, promptLen: int, responseLen: int, maxGroup: nat, maxTokenLen: int) {
    && ZeroOne(mask) && 0 <= promptLen <= mask.width
    && (mask.width <= promptLen + responseLen || FullGroup(promptLen, mask.width - promptLen, maxGroup) <= maxTokenLen)
  }

  lemma CostsWithinBudget(
      groups: seq<seq<nat>>, mask: Tensor2, promptLen: nat, responseLen: nat, maxTokenLen: int, maxGroup: nat)
    requires mask.Valid() && promptLen <= mask.width && RowsInMask(mask, groups) && maxGroup > 0
             && AtMost(groups, maxGroup)
    requires groups != [] ==> FullGroup(promptLen, responseLen, maxGroup) <= maxTokenLen
    requires MaskInBudget(mask, promptLen, responseLen, maxGroup, maxTokenLen)
    ensures AllWithin(DedupCosts(mask, groups, promptLen), maxTokenLen)
  {
    FullGroupGrows(promptLen, mask.width - promptLen, responseLen, maxGroup);
    forall g | 0 <= g < |groups|
      ensures DedupCosts(mask, groups, promptLen)[g] <= maxTokenLen
    {
      CostWithinBudget(mask, groups[g], promptLen, maxGroup, maxTokenLen);
    }
  }

  method CostedGroups(
      inputIds: Tensor2, mask: Option<Tensor2>, responseLen: int, maxTokenLen: int, maxGroup: int,
      ids: Option<seq<int>>)
    returns (r: Result<(seq<seq<nat>>, seq<int>), PromptError>)
    requires inputIds.Valid() && (mask.Some? ==> mask.value.Valid())
    ensures r == Costed(inputIds, mask, responseLen, maxTokenLen, maxGroup, ids)
    ensures r.Ok? ==> mask.Some?
    ensures r.Ok? && maxGroup > 0
            && MaskInBudget(mask.value, inputIds.width - responseLen, responseLen, maxGroup, maxTokenLen) ==>
              AllWithin(r.value.1, maxTokenLen)
  {
    var groups := PromptGroupRows(inputIds, responseLen, maxTokenLen, Some(maxGroup), ids);
    if groups.Ok? && maxGroup > 0 {
      PromptGroupsInBudget(inputIds, responseLen, maxTokenLen, maxGroup, ids);
    }
    r := CostGroups(groups, mask, inputIds.width - responseLen, responseLen, maxTokenLen, maxGroup);
  }

  method CostGroups(
      groups: Result<seq<seq<nat>>, PromptError>, mask: Option<Tensor2>, promptLen: int, responseLen: int,
      maxTokenLen: int, maxGroup: int)
    returns (r: Result<(seq<seq<nat>>, seq<int>), PromptError>)
    requires mask.Some? ==> mask.value.Valid()
    requires groups.Ok? ==> promptLen >= 0 && responseLen >= 0
    ensures r == CostedFrom(groups, mask, promptLen)
    ensures r.Ok? ==> mask.Some?
    ensures r.Ok? && maxGroup > 0 && GroupsInBudget(r.value.0, promptLen, responseLen, maxGroup, maxTokenLen)
            && MaskInBudget(mask.value, promptLen, responseLen, maxGroup, maxTokenLen) ==>
              AllWithin(r.value.1, maxTokenLen)
  {
    if groups.Err? {
      return Err(groups.error);
    }
    if mask.None? {
      return Err(MaskNotMatrix);
    }
    var costs := LinearDedupCosts(mask.value, groups.value, promptLen);
    if costs.Err? {
      return Err(costs.error);
    }
    if maxGroup > 0 && GroupsInBudget(groups.value, promptLen, responseLen, maxGroup, maxTokenLen)
       && MaskInBudget(mask.value, promptLen, responseLen, maxGroup, maxTokenLen) {
      CostsWithinBudget(groups.value, mask.value, promptLen, responseLen, maxTokenLen, maxGroup);
    }
    return Ok((groups.value, costs.value));
  }

  /** One row, ids of width 1 that are all response, a mask of width 2: the check passes a budget of 1 and
      the group costs 2. */
  lemma WideMaskExceedsBudget()
    ensures Costed(Tensor2(1, [[7]]), Some(AllOnes(1, 2)), 1, 1, 1, None) == Ok(([[0]], [2]))
  {
    OneResponseRow(7);
    WideRowCost();
  }

  lemma WideRowCost()
    ensures CostedFrom(Ok([[0]]), Some(AllOnes(1, 2)), 0) == Ok(([[0]], [2]))
  {
    var mask := AllOnes(1, 2);
    FullRowsCost(mask, [0], 0);
    assert DedupCosts(mask, [[0]], 0) == [2];
  }

  /** ZoRRo balancing: every error in the order the checks run, and otherwise the packing answer for
      the request's prompt groups under their deduplicated costs. */
  ghost predicate PromptAnswer(
      numShards: int, meta: Meta, inputIds: Option<Tensor2>, mask: Option<Option<Tensor2>>, ids: Option<seq<int>>,
      r: BatchResult)
    requires inputIds.Some? ==> inputIds.value.Valid()
    requires mask.Some? && mask.value.Some? ==> mask.value.value.Valid()
  {
    var maxGroup := if meta.zorroMaxRollouts.Some? then meta.zorroMaxRollouts else meta.rolloutN;
    if meta.maxResponseLen.None? || meta.maxTokenLen.None? || maxGroup.None? then r == Error(MissingMeta)
    else if inputIds.None? || mask.None? then r == Error(MissingTensors)
    else
      var costed := Costed(
        inputIds.value, mask.value, meta.maxResponseLen.value, meta.maxTokenLen.value, maxGroup.value, ids);
      if costed.Err? then r == Error(Prompt(costed.error))
      else
        && (r.Error? ==> r.error.Groups?)
        && GroupAssignment.Answers(costed.value.0, AsReals(costed.value.1), numShards, |inputIds.value.rows|,
            ToGroups(r))
  }

  method AssignPromptGroups(
      numShards: int, meta: Meta, inputIds: Option<Tensor2>, mask: Option<Option<Tensor2>>, ids: Option<seq<int>>)
    returns (r: BatchResult)
    requires inputIds.Some? ==> inputIds.value.Valid()
    requires mask.Some? && mask.value.Some? ==> mask.value.value.Valid()
    ensures PromptAnswer(numShards, meta, inputIds, mask, ids, r)
    ensures r.Assigned? ==> inputIds.Some? && GoodShape(r, |inputIds.value.rows|, numShards)
  {
    var maxGroup := meta.zorroMaxRollouts;
    if maxGroup.None? {
      maxGroup := meta.rolloutN;
    }
    if meta.maxResponseLen.None? || meta.maxTokenLen.None? || maxGroup.None? {
      return Error(MissingMeta);
    }
    if inputIds.None? || mask.None? {
      return Error(MissingTensors);
    }
    var costed := CostedGroups(
      inputIds.value, mask.value, meta.maxResponseLen.value, meta.maxTokenLen.value, maxGroup.value, ids);
    if costed.Err? {
      return Error(Prompt(costed.error));
    }
    r := PackCosted(costed.value.0, costed.value.1, numShards, |inputIds.value.rows|);
  }

  method PackCosted(groups: seq<seq<nat>>, costs: seq<int>, numShards: int, n: nat) returns (r: BatchResult)
    ensures r.Error? ==> r.error.Groups?
    ensures GroupAssignment.Answers(groups, AsReals(costs), numShards, n, ToGroups(r))
    ensures GoodShape(r, n, numShards)
  {
    var packed := GroupAssignment.AssignZorroGroups(groups, AsReals(costs), numShards, n);
    r := FromGroups(packed);
  }

  /** The number of rows of a request, as the branch that assigns it measures them. */
  ghost function RowCount(
      meta: Meta, inputIds: Option<Tensor2>, mask: Option<Option<Tensor2>>, lengths: Option<seq<int>>): Option<nat>
  {
    if meta.zorro then (if inputIds.Some? then Some(|inputIds.value.rows|) else None)
    else if lengths.Some? then Some(|lengths.value|)
    else if mask.Some? && mask.value.Some? then Some(|mask.value.value.rows|)
    else None
  }

  /** Row balancing: the capped LPT bins, whose squared-length loads are at most one row apart. */
  ghost predicate RowsAnswer(costs: seq<int>, numShards: int, r: BatchResult) {
    if numShards < 1 then r == Error(Lpt(RowLpt.NoShards))
    else
      && r.Assigned? && |HeaviestOrder(costs)| == |costs|
      && RowLpt.SortedCopies(RowLpt.LptBins(costs, numShards), r.bins)
      && RowLpt.Balanced(costs, r.bins, RowLpt.MaxCost(costs))
  }

  ghost predicate LengthsAnswer(
      numShards: int, measured: Option<seq<int>>, groupIds: Option<Option<seq<int>>>, r: BatchResult)
  {
    if measured.None? || |measured.value| < numShards then r == KeepOrder
    else if groupIds.None? then RowsAnswer(SquaredCosts(measured.value), numShards, r)
    else WholeGroupsAnswer(SquaredCosts(measured.value), groupIds.value, numShards, r)
  }

  /** Balancing by row lengths, with or without prompt groups. */
  method AssignByLengths(numShards: int, measured: Option<seq<int>>, groupIds: Option<Option<seq<int>>>)
    returns (r: BatchResult)
    ensures LengthsAnswer(numShards, measured, groupIds, r)
    ensures r.Assigned? ==> measured.Some? && GoodShape(r, |measured.value|, numShards)
  {
    if measured.None? || |measured.value| < numShards {
      return KeepOrder;
    }
    var costs := SquaredCosts(measured.value);
    if groupIds.None? {
      var split := RowLpt.AssignRowLpt(costs, numShards);
      return if split.Ok? then Assigned(split.value) else Error(Lpt(split.error));
    }
    r := AssignWholeGroups(costs, groupIds.value, numShards);
  }

  method AssignBalancedBatch(
      numShards: int, meta: Meta, inputIds: Option<Tensor2>, mask: Option<Option<Tensor2>>,
      lengths: Option<seq<int>>, promptGroupIds: Option<Option<seq<int>>>)
    returns (r: BatchResult)
    requires inputIds.Some? ==> inputIds.value.Valid()
    requires mask.Some? && mask.value.Some? ==> mask.value.value.Valid()
    ensures
      var n := RowCount(meta, inputIds, mask, lengths);
      r.Assigned? ==> n.Some? && GoodShape(r, n.value, numShards)
    ensures
      var groupIds := if promptGroupIds.Some? then promptGroupIds else meta.promptGroupIds;
      if meta.balanceBatch == Some(false) then r == KeepOrder
      else if meta.zorro then
        PromptAnswer(numShards, meta, inputIds, mask, if groupIds.Some? then groupIds.value else None, r)
      else if lengths.Some? then LengthsAnswer(numShards, lengths, groupIds, r)
      else if mask.Some? && mask.value.Some? then
        LengthsAnswer(numShards, Some(RowTokens(mask.value.value)), groupIds, r)
      else r == KeepOrder
  {
    if meta.balanceBatch == Some(false) {
      return KeepOrder;
    }
    var groupIds := if promptGroupIds.Some? then promptGroupIds else meta.promptGroupIds;
    if meta.zorro {
      r := AssignPromptGroups(numShards, meta, inputIds, mask, if groupIds.Some? then groupIds.value else None);
      return;
    }
    var measured := lengths;
    if measured.None? && mask.Some? && mask.value.Some? {
      measured := Some(RowTokens(mask.value.value));
    }
    r := AssignByLengths(numShards, measured, groupIds);
  }
}
