/** Packing whole prompt groups into equal rank bins
    (arctic_platform/common/utils/balanced_batch.py, assign_zorro_groups). */
module GroupAssignment {
  import opened Basics
  import opened PackSearch
  import opened PackChoice
  import RowLpt

  datatype GroupError =
    | NoShards
    | LengthMismatch
    | NotDivisible
    | NotAPartition
    | GroupTooLarge
    | DoNotFit
    | SearchBudget(nodes: nat)

  datatype Assignment = KeepArrivalOrder | Bins(bins: seq<seq<nat>>) | Failed(error: GroupError)

  // ---------------------------------------------------------------- counting over ranks

  /** Rows per rank. */
  ghost function RankTotals(sizes: seq<nat>, rankOf: seq<nat>, numShards: nat): seq<int>
    requires |rankOf| == |sizes|
  {
    seq(numShards, r requires 0 <= r => Sum(Share(sizes, rankOf, r)))
  }

  lemma ShareLast(sizes: seq<nat>, rankOf: seq<nat>, r: nat)
    requires |rankOf| == |sizes| > 0
    ensures
      var k := |sizes| - 1;
      Sum(Share(sizes, rankOf, r)) == Sum(Share(sizes[..k], rankOf[..k], r)) + (if rankOf[k] == r then sizes[k] else 0)
  {
    var k := |sizes| - 1;
    assert Share(sizes, rankOf, r)[..k] == Share(sizes[..k], rankOf[..k], r);
  }

  /** Every row is counted on exactly one rank. */
  lemma {:induction false} RankTotalsSum(sizes: seq<nat>, rankOf: seq<nat>, numShards: nat)
    requires |rankOf| == |sizes| && InRange(rankOf, numShards)
    ensures Sum(RankTotals(sizes, rankOf, numShards)) == Sum(sizes)
    decreases |sizes|
  {
    var totals := RankTotals(sizes, rankOf, numShards);
    if sizes == [] {
      SumConstant(totals, 0);
    } else {
      var k := |sizes| - 1;
      var before := RankTotals(sizes[..k], rankOf[..k], numShards);
      RankTotalsSum(sizes[..k], rankOf[..k], numShards);
      forall r | 0 <= r < numShards
        ensures totals[r] == before[r := before[r]][r] + (if rankOf[k] == r then sizes[k] else 0)
      {
        ShareLast(sizes, rankOf, r);
      }
      assert totals == before[rankOf[k] := before[rankOf[k]] + sizes[k]];
      SumUpdate(before, rankOf[k], before[rankOf[k]] + sizes[k]);
    }
  }

  lemma {:induction false} ShareHolds(sizes: seq<nat>, rankOf: seq<nat>, g: nat)
    requires |rankOf| == |sizes| && g < |sizes|
    ensures Sum(Share(sizes, rankOf, rankOf[g])) >= sizes[g]
    decreases |sizes|
  {
    var k, r := |sizes| - 1, rankOf[g];
    ShareLast(sizes, rankOf, r);
    if g < k {
      ShareHolds(sizes[..k], rankOf[..k], g);
    } else {
      ShareNonNegative(sizes[..k], rankOf[..k], r);
    }
  }

  lemma {:induction false} ShareNonNegative(sizes: seq<nat>, rankOf: seq<nat>, r: nat)
    requires |rankOf| == |sizes|
    ensures Sum(Share(sizes, rankOf, r)) >= 0
    decreases |sizes|
  {
    if sizes != [] {
      ShareLast(sizes, rankOf, r);
      ShareNonNegative(sizes[..|sizes| - 1], rankOf[..|sizes| - 1], r);
    }
  }

  /** A group larger than the cap has no rank. */
  lemma OversizeDoesNotFit(sizes: seq<nat>, rankOf: seq<nat>, numShards: nat, cap: nat, g: nat)
    requires g < |sizes| && sizes[g] > cap
    ensures !Packs(sizes, rankOf, numShards, cap)
  {
    if Packs(sizes, rankOf, numShards, cap) {
      ShareHolds(sizes, rankOf, g);
    }
  }

  lemma {:induction false} EqualShare(sizes: seq<nat>, rankOf: seq<nat>, size: nat, r: nat)
    requires |rankOf| == |sizes| && forall g :: 0 <= g < |sizes| ==> sizes[g] == size
    ensures Sum(Share(sizes, rankOf, r)) == size * Sum(Share(Ones(|sizes|), rankOf, r))
    decreases |sizes|
  {
    if sizes != [] {
      var k := |sizes| - 1;
      ShareLast(sizes, rankOf, r);
      ShareLast(Ones(|sizes|), rankOf, r);
      assert Ones(|sizes|)[..k] == Ones(k);
      EqualShare(sizes[..k], rankOf[..k], size, r);
      var few := Sum(Share(Ones(k), rankOf[..k], r));
      MulNext(size, few);
    }
  }

  function Ones(n: nat): (s: seq<nat>)
    ensures |s| == n && forall i :: 0 <= i < n ==> s[i] == 1
  {
    seq(n, _ => 1)
  }

  /** The shortcut before the search: equal groups fit only if each rank's whole number of them covers all. */
  lemma EqualSizesDoNotFit(sizes: seq<nat>, rankOf: seq<nat>, numShards: nat, cap: nat, size: nat)
    requires size > 0 && forall g :: 0 <= g < |sizes| ==> sizes[g] == size
    requires |sizes| > numShards * (cap / size)
    ensures !Packs(sizes, rankOf, numShards, cap)
  {
    if Packs(sizes, rankOf, numShards, cap) {
      var counts := RankTotals(Ones(|sizes|), rankOf, numShards);
      forall r | 0 <= r < numShards
        ensures counts[r] <= cap / size
      {
        EqualShare(sizes, rankOf, size, r);
        MultipleWithin(size, counts[r], cap);
      }
      SumBound(counts, cap / size);
      RankTotalsSum(Ones(|sizes|), rankOf, numShards);
      SumConstant(Ones(|sizes|), 1);
      assert false;
    }
  }

  /** With `numShards * cap` rows in all, a packing fills every rank exactly. */
  lemma PackingIsExact(sizes: seq<nat>, rankOf: seq<nat>, numShards: nat, cap: nat, r: nat)
    requires Packs(sizes, rankOf, numShards, cap) && Sum(sizes) == numShards * cap && r < numShards
    ensures Sum(Share(sizes, rankOf, r)) == cap
  {
    var totals := RankTotals(sizes, rankOf, numShards);
    RankTotalsSum(sizes, rankOf, numShards);
    assert forall q :: 0 <= q < numShards ==> totals[q] <= cap;
    SumBound(totals, cap);
    assert totals[r] == cap;
  }

  // ---------------------------------------------------------------- the bins

  /** Groups of `order` placed on rank `r`, whole and in order. */
  ghost function BinOf(groups: seq<seq<nat>>, order: seq<nat>, rankOf: map<nat, nat>, r: nat): seq<nat>
    requires forall i :: 0 <= i < |order| ==> order[i] < |groups| && order[i] in rankOf
  {
    if order == [] then []
    else
      var g := order[|order| - 1];
      BinOf(groups, order[..|order| - 1], rankOf, r) + (if rankOf[g] == r then groups[g] else [])
  }

  lemma {:induction false} BinLength(groups: seq<seq<nat>>, order: seq<nat>, rankOf: map<nat, nat>, r: nat)
    requires forall g: nat :: g < |groups| ==> g in rankOf
    requires forall i :: 0 <= i < |order| ==> order[i] < |groups| && order[i] in rankOf
    ensures |BinOf(groups, order, rankOf, r)| == Load(Share(Sizes(groups), RankSeq(rankOf, |groups|), r), order)
    decreases |order|
  {
    if order != [] {
      BinLength(groups, order[..|order| - 1], rankOf, r);
    }
  }

  lemma {:induction false} BinStart(groups: seq<seq<nat>>, order: seq<nat>, rankOf: map<nat, nat>, k: nat, r: nat)
    requires (forall g: nat :: g < |groups| ==> g in rankOf) && InRange(order, |groups|) && k <= |order|
    ensures |BinOf(groups, order[..k], rankOf, r)|
         == PlacedRows(Sizes(groups), order, RankSeq(rankOf, |groups|), k, r)
    decreases k
  {
    if k > 0 {
      BinStart(groups, order, rankOf, k - 1, r);
      assert order[..k][..k - 1] == order[..k - 1];
    }
  }

  ghost predicate HeldAt(bin: seq<nat>, at: nat, group: seq<nat>) {
    at + |group| <= |bin| && bin[at..at + |group|] == group
  }

  /** A placed group is one contiguous run of the bin of its rank, behind the groups placed there before it. */
  lemma {:induction false} GroupStaysWhole(
      groups: seq<seq<nat>>, order: seq<nat>, rankOf: map<nat, nat>, k: nat, n: nat)
    requires (forall g: nat :: g < |groups| ==> g in rankOf) && InRange(order, |groups|) && k < n <= |order|
    ensures
      var r := rankOf[order[k]];
      HeldAt(
        BinOf(groups, order[..n], rankOf, r),
        PlacedRows(Sizes(groups), order, RankSeq(rankOf, |groups|), k, r),
        groups[order[k]])
    decreases n
  {
    var r := rankOf[order[k]];
    var prior := BinOf(groups, order[..n - 1], rankOf, r);
    assert order[..n][..n - 1] == order[..n - 1];
    if k < n - 1 {
      GroupStaysWhole(groups, order, rankOf, k, n - 1);
      var at, size := PlacedRows(Sizes(groups), order, RankSeq(rankOf, |groups|), k, r), |groups[order[k]]|;
      var bin := BinOf(groups, order[..n], rankOf, r);
      assert bin[..|prior|] == prior;
      assert bin[at..at + size] == prior[at..at + size];
    } else {
      BinStart(groups, order, rankOf, k, r);
    }
  }

  /** Largest group first, then most expensive, ties in group order. */
  function PackOrder(sizes: seq<nat>, costs: seq<real>): (nat, nat) -> bool {
    (a: nat, b: nat) =>
      if At(sizes, a) != At(sizes, b) then At(sizes, a) > At(sizes, b)
      else if CostAt(costs, a) != CostAt(costs, b) then CostAt(costs, a) > CostAt(costs, b)
      else a <= b
  }

  function SearchOrder(sizes: seq<nat>, costs: seq<real>): seq<nat> {
    SortBy(PackOrder(sizes, costs), Range(|sizes|))
  }

  ghost predicate LargestFirst(sizes: seq<nat>, costs: seq<real>, order: seq<nat>)
    requires |sizes| == |costs| && InRange(order, |sizes|)
  {
    forall i, j :: 0 <= i < j < |order| ==>
      var a, b := order[i], order[j];
      || sizes[a] > sizes[b]
      || (sizes[a] == sizes[b] && costs[a] > costs[b])
      || (sizes[a] == sizes[b] && costs[a] == costs[b] && a < b)
  }

  lemma SearchOrderIsLargestFirst(sizes: seq<nat>, costs: seq<real>)
    requires |sizes| == |costs|
    ensures var order := SearchOrder(sizes, costs);
            Perm(order, |sizes|) && InRange(order, |sizes|) && LargestFirst(sizes, costs, order)
  {
    SearchOrderIsPerm(sizes, costs);
    var order := SearchOrder(sizes, costs);
    forall i, j | 0 <= i < j < |order|
      ensures
        var a, b := order[i], order[j];
        || sizes[a] > sizes[b]
        || (sizes[a] == sizes[b] && costs[a] > costs[b])
        || (sizes[a] == sizes[b] && costs[a] == costs[b] && a < b)
    {
      assert PackOrder(sizes, costs)(order[i], order[j]);
      assert order[i] != order[j];
    }
  }

  lemma SearchOrderIsPerm(sizes: seq<nat>, costs: seq<real>)
    ensures var order := SearchOrder(sizes, costs);
            Perm(order, |sizes|) && |order| == |sizes| && Distinct(order) && InRange(order, |sizes|)
    ensures SortedBy(PackOrder(sizes, costs), SearchOrder(sizes, costs))
  {
    var order := SearchOrder(sizes, costs);
    SortBySorts(PackOrder(sizes, costs), Range(|sizes|));
    PermMember(order, |sizes|);
    forall i | 0 <= i < |order|
      ensures order[i] < |sizes|
    {
      assert order[i] in order;
    }
  }

  // ---------------------------------------------------------------- the operation

  /** The groups are whole in the bins: those of one rank, in search order, are its bin from end to end. */
  ghost predicate LaysOutWhole(groups: seq<seq<nat>>, costs: seq<real>, bins: seq<seq<nat>>, rankOf: map<nat, nat>) {
    && |groups| == |costs|
    && (forall g: nat :: g < |groups| <==> g in rankOf)
    && var sizes, order, home := Sizes(groups), SearchOrder(Sizes(groups), costs), RankSeq(rankOf, |groups|);
       && InRange(order, |groups|)
       && (forall r :: 0 <= r < |bins| ==> |bins[r]| == PlacedRows(sizes, order, home, |order|, r))
       && (forall k :: 0 <= k < |order| ==>
             var r := home[order[k]];
             r < |bins| && HeldAt(bins[r], PlacedRows(sizes, order, home, k, r), groups[order[k]]))
  }

  /** Inputs that reach the packing itself. */
  ghost predicate Packable(groups: seq<seq<nat>>, costs: seq<real>, numShards: int, numRows: nat) {
    && 1 <= numShards < numRows && |groups| == |costs|
    && numRows % numShards == 0 && Perm(Flatten(groups), numRows)
  }

  ghost predicate HasPacking(groups: seq<seq<nat>>, numShards: nat, cap: nat) {
    exists rankOf :: Packs(Sizes(groups), rankOf, numShards, cap)
  }

  ghost function SearchTotal(groups: seq<seq<nat>>, costs: seq<real>, numShards: nat, cap: nat): Search
    requires |groups| == |costs|
  {
    var sizes := Sizes(groups);
    SearchOrderIsPerm(sizes, costs);
    Explore(Ordered(sizes, costs, SearchOrder(sizes, costs)), Zeros(numShards), ZeroCosts(numShards), cap)
  }

  /** Of all packings the bins hold the first, comparing ranks by running cost, then index, group by group in
      search order; and if the search took one node per group, each group is on the cheapest rank with room. */
  ghost predicate BestPacking(
      groups: seq<seq<nat>>, costs: seq<real>, rankOf: map<nat, nat>, numShards: nat, cap: nat, nodes: nat)
    requires |groups| == |costs|
  {
    && (forall g: nat :: g < |groups| <==> g in rankOf)
    && var sizes, order, home := Sizes(groups), SearchOrder(Sizes(groups), costs), RankSeq(rankOf, |groups|);
       && InRange(order, |sizes|) && LargestFirst(sizes, costs, order)
       && FirstOfAllPackings(sizes, costs, order, home, numShards, cap)
       && (nodes == |groups| ==> PlacedGreedily(sizes, costs, order, home, numShards, cap))
  }

  ghost predicate SomeGroupTooLarge(groups: seq<seq<nat>>, cap: nat) {
    exists g :: 0 <= g < |groups| && |groups[g]| > cap
  }

  /** The shortcut before the search: equal non-empty groups, more of them than whole ones fit. */
  predicate EqualSizesOverflow(groups: seq<seq<nat>>, numShards: nat, cap: nat) {
    && groups != [] && (forall g :: 0 <= g < |groups| ==> |groups[g]| == |groups[0]|) && groups[0] != []
    && |groups| > numShards * (cap / |groups[0]|)
  }

  /** What a call on packable inputs answers: bins exactly when a packing exists and the search finds
      it within its budget, "does not fit" only when there is none, and "budget" only when the search
      needs more nodes than allowed. */
  ghost predicate DecidesPacking(groups: seq<seq<nat>>, costs: seq<real>, numShards: nat, numRows: nat, r: Assignment)
    requires |groups| == |costs| && numShards > 0
  {
    var cap := numRows / numShards;
    match r
    case KeepArrivalOrder => false
    case Bins(bins) =>
      && HasPacking(groups, numShards, cap)
      && SearchTotal(groups, costs, numShards, cap).nodes <= PACK_NODE_BUDGET
      && RowLpt.ShapedLikeTensorSplit(bins, numRows, numShards)
      && exists rankOf ::
           && LaysOutWhole(groups, costs, bins, rankOf)
           && BestPacking(groups, costs, rankOf, numShards, cap, SearchTotal(groups, costs, numShards, cap).nodes)
    case Failed(GroupTooLarge) => SomeGroupTooLarge(groups, cap) && !HasPacking(groups, numShards, cap)
    case Failed(DoNotFit) => !SomeGroupTooLarge(groups, cap) && !HasPacking(groups, numShards, cap)
    case Failed(SearchBudget(nodes)) =>
      && !SomeGroupTooLarge(groups, cap) && !EqualSizesOverflow(groups, numShards, cap)
      && nodes == PACK_NODE_BUDGET < SearchTotal(groups, costs, numShards, cap).nodes
    case Failed(_) => false
  }

  /** The answer to any call. */
  ghost predicate Answers(groups: seq<seq<nat>>, costs: seq<real>, numShards: int, numRows: nat, r: Assignment) {
    if numShards < 1 then r == Failed(NoShards)
    else if |groups| != |costs| then r == Failed(LengthMismatch)
    else if numRows <= numShards then r == KeepArrivalOrder
    else if numRows % numShards != 0 then r == Failed(NotDivisible)
    else if !Perm(Flatten(groups), numRows) then r == Failed(NotAPartition)
    else DecidesPacking(groups, costs, numShards, numRows, r)
  }

  method AssignZorroGroups(groups: seq<seq<nat>>, costs: seq<real>, numShards: int, numRows: nat)
    returns (r: Assignment)
    ensures Answers(groups, costs, numShards, numRows, r)
  {
    if numShards < 1 {
      return Failed(NoShards);
    }
    if |groups| != |costs| {
      return Failed(LengthMismatch);
    }
    if numRows <= numShards {
      return KeepArrivalOrder;
    }
    if numRows % numShards != 0 {
      return Failed(NotDivisible);
    }
    if !Perm(Flatten(groups), numRows) {
      return Failed(NotAPartition);
    }
    r := PackWholeGroups(groups, costs, numShards, numRows);
  }

  lemma OversizeRulesOut(groups: seq<seq<nat>>, numShards: nat, cap: nat)
    requires SomeGroupTooLarge(groups, cap)
    ensures !HasPacking(groups, numShards, cap)
  {
    var g :| 0 <= g < |groups| && |groups[g]| > cap;
    forall rankOf ensures !Packs(Sizes(groups), rankOf, numShards, cap) {
      OversizeDoesNotFit(Sizes(groups), rankOf, numShards, cap, g);
    }
  }

  /** The scan of the groups, largest first, for one that no rank can hold. */
  method FindTooLarge(groups: seq<seq<nat>>, order: seq<nat>, cap: nat) returns (found: bool)
    requires Perm(order, |groups|) && InRange(order, |groups|)
    ensures found <==> SomeGroupTooLarge(groups, cap)
  {
    for i := 0 to |order|
      invariant forall j :: 0 <= j < i ==> |groups[order[j]]| <= cap
    {
      if |groups[order[i]]| > cap {
        return true;
      }
    }
    forall g: nat | g < |groups|
      ensures |groups[g]| <= cap
    {
      PermMember(order, |groups|);
      assert g in order;
    }
    return false;
  }

  method PackWholeGroups(groups: seq<seq<nat>>, costs: seq<real>, numShards: nat, numRows: nat)
    returns (r: Assignment)
    requires Packable(groups, costs, numShards, numRows)
    ensures DecidesPacking(groups, costs, numShards, numRows, r)
  {
    var cap := numRows / numShards;
    var sizes := Sizes(groups);
    SearchOrderIsPerm(sizes, costs);
    var tooLarge := FindTooLarge(groups, SearchOrder(sizes, costs), cap);
    if tooLarge {
      OversizeRulesOut(groups, numShards, cap);
      return Failed(GroupTooLarge);
    }
    if EqualSizesOverflow(groups, numShards, cap) {
      forall rankOf ensures !Packs(sizes, rankOf, numShards, cap) {
        EqualSizesDoNotFit(sizes, rankOf, numShards, cap, sizes[0]);
      }
      return Failed(DoNotFit);
    }
    r := SearchAndFill(groups, costs, numShards, numRows);
  }

  method SearchAndFill(groups: seq<seq<nat>>, costs: seq<real>, numShards: nat, numRows: nat) returns (r: Assignment)
    requires Packable(groups, costs, numShards, numRows) && !SomeGroupTooLarge(groups, numRows / numShards)
    requires !EqualSizesOverflow(groups, numShards, numRows / numShards)
    ensures DecidesPacking(groups, costs, numShards, numRows, r)
  {
    var cap := numRows / numShards;
    var order := SearchOrder(Sizes(groups), costs);
    SearchOrderIsPerm(Sizes(groups), costs);
    var outcome := SearchPacking(groups, costs, order, numShards, cap);
    match outcome
    case BudgetExceeded(nodes) => return Failed(SearchBudget(nodes));
    case NoFit => return Failed(DoNotFit);
    case Placed(rankOf) =>
      QuotientFills(numRows, numShards);
      var bins := LayOut(groups, costs, order, rankOf, numShards, cap, numRows);
      return Bins(bins);
  }

  lemma QuotientFills(n: nat, d: nat)
    requires d > 0 && n % d == 0
    ensures n == d * (n / d)
  {
  }

  method LayOut(
      groups: seq<seq<nat>>, costs: seq<real>, order: seq<nat>, rankOf: map<nat, nat>, numShards: nat, cap: nat,
      numRows: nat)
    returns (bins: seq<seq<nat>>)
    requires 0 < numShards && numRows == numShards * cap && Perm(Flatten(groups), numRows)
    requires |groups| == |costs| && order == SearchOrder(Sizes(groups), costs)
    requires forall g: nat :: g < |groups| <==> g in rankOf
    requires Packs(Sizes(groups), RankSeq(rankOf, |groups|), numShards, cap)
    ensures RowLpt.ShapedLikeTensorSplit(bins, numRows, numShards)
    ensures LaysOutWhole(groups, costs, bins, rankOf)
  {
    SearchOrderIsPerm(Sizes(groups), costs);
    RanksInRange(order, rankOf, |groups|, numShards);
    bins := FillBins(groups, order, rankOf, numShards);
    BinsAreShaped(groups, order, rankOf, bins, numShards, cap, numRows);
    BinsHoldGroups(groups, costs, order, rankOf, bins);
  }

  lemma BinsHoldGroups(
      groups: seq<seq<nat>>, costs: seq<real>, order: seq<nat>, rankOf: map<nat, nat>, bins: seq<seq<nat>>)
    requires |groups| == |costs| && order == SearchOrder(Sizes(groups), costs) && InRange(order, |groups|)
    requires forall g: nat :: g < |groups| <==> g in rankOf
    requires forall r :: 0 <= r < |bins| ==> bins[r] == BinOf(groups, order, rankOf, r)
    requires forall k :: 0 <= k < |order| ==> rankOf[order[k]] < |bins|
    ensures LaysOutWhole(groups, costs, bins, rankOf)
  {
    var sizes, home := Sizes(groups), RankSeq(rankOf, |groups|);
    assert order[..|order|] == order;
    forall r | 0 <= r < |bins|
      ensures |bins[r]| == PlacedRows(sizes, order, home, |order|, r)
    {
      BinStart(groups, order, rankOf, |order|, r);
    }
    forall k | 0 <= k < |order|
      ensures
        var r := home[order[k]];
        r < |bins| && HeldAt(bins[r], PlacedRows(sizes, order, home, k, r), groups[order[k]])
    {
      GroupStaysWhole(groups, order, rankOf, k, |order|);
    }
  }

  /** The search decides whether whole groups pack, unless it runs out of nodes. */
  method SearchPacking(groups: seq<seq<nat>>, costs: seq<real>, order: seq<nat>, numShards: nat, cap: nat)
    returns (outcome: Outcome)
    requires |groups| == |costs| && order == SearchOrder(Sizes(groups), costs)
    ensures outcome.BudgetExceeded? <==> SearchTotal(groups, costs, numShards, cap).nodes > PACK_NODE_BUDGET
    ensures outcome.BudgetExceeded? ==> outcome.nodes == PACK_NODE_BUDGET
    ensures outcome.NoFit? ==> !HasPacking(groups, numShards, cap)
    ensures outcome.Placed? ==>
              && HasPacking(groups, numShards, cap)
              && (forall g: nat :: g < |groups| <==> g in outcome.rankOf)
              && Packs(Sizes(groups), RankSeq(outcome.rankOf, |groups|), numShards, cap)
              && BestPacking(groups, costs, outcome.rankOf, numShards, cap,
                  SearchTotal(groups, costs, numShards, cap).nodes)
  {
    var sizes := Sizes(groups);
    SearchOrderIsPerm(sizes, costs);
    OutcomeMeaning(sizes, costs, order, numShards, cap);
    outcome := PackGroups(sizes, costs, order, numShards, cap);
    if outcome.Placed? {
      PlacedIsBest(groups, costs, order, numShards, cap, SearchTotal(groups, costs, numShards, cap).found.value);
    }
  }

  /** The packing that the search ends with is the best one. */
  lemma PlacedIsBest(
      groups: seq<seq<nat>>, costs: seq<real>, order: seq<nat>, numShards: nat, cap: nat, ranks: seq<nat>)
    requires |groups| == |costs| && order == SearchOrder(Sizes(groups), costs) && |ranks| == |order|
    requires SearchTotal(groups, costs, numShards, cap).found == Some(ranks)
    ensures
      var nodes := SearchTotal(groups, costs, numShards, cap).nodes;
      BestPacking(groups, costs, PlacedMap(order, ranks), numShards, cap, nodes)
  {
    var sizes := Sizes(groups);
    SearchOrderIsPerm(sizes, costs);
    SearchOrderIsLargestFirst(sizes, costs);
    PlacedMapCovers(order, ranks, |sizes|);
    var home := RankSeq(PlacedMap(order, ranks), |sizes|);
    assert RanksInOrder(order, home) == ranks;
    FoundPacking(sizes, costs, order, home, numShards, cap);
  }

  lemma RanksInRange(order: seq<nat>, rankOf: map<nat, nat>, n: nat, numShards: nat)
    requires InRange(order, n) && forall g: nat :: g < n <==> g in rankOf
    requires InRange(RankSeq(rankOf, n), numShards)
    ensures forall i :: 0 <= i < |order| ==> order[i] < n && order[i] in rankOf && rankOf[order[i]] < numShards
  {
    forall i | 0 <= i < |order|
      ensures order[i] in rankOf && rankOf[order[i]] < numShards
    {
      assert rankOf[order[i]] == RankSeq(rankOf, n)[order[i]];
    }
  }

  method FillBins(groups: seq<seq<nat>>, order: seq<nat>, rankOf: map<nat, nat>, numShards: nat)
    returns (bins: seq<seq<nat>>)
    requires forall i :: 0 <= i < |order| ==> order[i] < |groups| && order[i] in rankOf && rankOf[order[i]] < numShards
    ensures |bins| == numShards && forall r :: 0 <= r < numShards ==> bins[r] == BinOf(groups, order, rankOf, r)
    ensures multiset(Flatten(bins)) == multiset(Flatten(Pick(groups, order)))
  {
    bins := RowLpt.EmptyBins(numShards);
    RowLpt.FlattenEmpty(numShards);
    for i := 0 to |order|
      invariant |bins| == numShards
      invariant forall r :: 0 <= r < numShards ==> bins[r] == BinOf(groups, order[..i], rankOf, r)
      invariant multiset(Flatten(bins)) == multiset(Flatten(Pick(groups, order[..i])))
    {
      var g := order[i];
      BinsNext(groups, order, rankOf, bins, i);
      ContentsNext(groups, order, bins, rankOf[g], i);
      bins := bins[rankOf[g] := bins[rankOf[g]] + groups[g]];
    }
    assert order[..|order|] == order;
  }

  lemma BinsNext(groups: seq<seq<nat>>, order: seq<nat>, rankOf: map<nat, nat>, bins: seq<seq<nat>>, i: nat)
    requires forall k :: 0 <= k < |order| ==> order[k] < |groups| && order[k] in rankOf && rankOf[order[k]] < |bins|
    requires i < |order| && forall r :: 0 <= r < |bins| ==> bins[r] == BinOf(groups, order[..i], rankOf, r)
    ensures
      var next := bins[rankOf[order[i]] := bins[rankOf[order[i]]] + groups[order[i]]];
      forall r :: 0 <= r < |bins| ==> next[r] == BinOf(groups, order[..i + 1], rankOf, r)
  {
    assert order[..i + 1][..i] == order[..i];
  }

  lemma ContentsNext(groups: seq<seq<nat>>, order: seq<nat>, bins: seq<seq<nat>>, rank: nat, i: nat)
    requires i < |order| && InRange(order, |groups|) && rank < |bins|
    requires multiset(Flatten(bins)) == multiset(Flatten(Pick(groups, order[..i])))
    ensures multiset(Flatten(bins[rank := bins[rank] + groups[order[i]]]))
            == multiset(Flatten(Pick(groups, order[..i + 1])))
  {
    FlattenGrow(bins, rank, groups[order[i]]);
    PickNext(groups, order, i);
  }

  lemma PickNext(groups: seq<seq<nat>>, order: seq<nat>, i: nat)
    requires i < |order| && InRange(order, |groups|)
    ensures Flatten(Pick(groups, order[..i + 1])) == Flatten(Pick(groups, order[..i])) + groups[order[i]]
  {
    assert Pick(groups, order[..i + 1])[..i] == Pick(groups, order[..i]);
  }

  lemma BinsAreShaped(
      groups: seq<seq<nat>>, order: seq<nat>, rankOf: map<nat, nat>, bins: seq<seq<nat>>,
      numShards: nat, cap: nat, numRows: nat)
    requires 0 < numShards && numRows == numShards * cap && Perm(Flatten(groups), numRows)
    requires Perm(order, |groups|) && InRange(order, |groups|)
    requires forall g: nat :: g < |groups| <==> g in rankOf
    requires Packs(Sizes(groups), RankSeq(rankOf, |groups|), numShards, cap)
    requires |bins| == numShards && forall r :: 0 <= r < numShards ==> bins[r] == BinOf(groups, order, rankOf, r)
    requires multiset(Flatten(bins)) == multiset(Flatten(Pick(groups, order)))
    ensures RowLpt.ShapedLikeTensorSplit(bins, numRows, numShards)
  {
    var sizes, ranks := Sizes(groups), RankSeq(rankOf, |groups|);
    PickPermutation(groups, order);
    RowLpt.FlattenLength(groups);
    assert |multiset(Flatten(groups))| == |multiset(Range(numRows))|;
    ExactDivision(numRows, numShards, cap);
    forall r | 0 <= r < numShards
      ensures |bins[r]| == RowLpt.SplitSize(numRows, numShards, r)
    {
      BinIsShare(groups, order, rankOf, r);
      PackingIsExact(sizes, ranks, numShards, cap, r);
    }
  }

  /** A bin has as many rows as its groups together. */
  lemma BinIsShare(groups: seq<seq<nat>>, order: seq<nat>, rankOf: map<nat, nat>, r: nat)
    requires Perm(order, |groups|) && InRange(order, |groups|) && forall g: nat :: g < |groups| <==> g in rankOf
    ensures |BinOf(groups, order, rankOf, r)| == Sum(Share(Sizes(groups), RankSeq(rankOf, |groups|), r))
  {
    var share := Share(Sizes(groups), RankSeq(rankOf, |groups|), r);
    BinLength(groups, order, rankOf, r);
    LoadPermutation(share, order, Range(|groups|));
    LoadRangeIsSum(share, |groups|);
    assert share[..|groups|] == share;
  }
}
