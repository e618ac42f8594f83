/** Cardinality-constrained longest-processing-time assignment of rows to ranks
    (arctic_platform/common/utils/balanced_batch.py, assign_row_lpt). */
module RowLpt {
  import opened Basics

  datatype LptError = NoShards | BatchTooSmall | UnableToAssign(row: nat)

  // ---------------------------------------------------------------- the DP cut

  /** Rows of one rank under `torch.tensor_split`: the first `n % shards` ranks get one extra. */
  function SplitSize(n: nat, shards: nat, rank: nat): nat
    requires shards > 0
  {
    n / shards + (if rank < n % shards then 1 else 0)
  }

  function SplitSizes(n: nat, shards: nat): (caps: seq<nat>)
    requires shards > 0
    ensures |caps| == shards && forall r :: 0 <= r < shards ==> caps[r] == SplitSize(n, shards, r)
  {
    seq(shards, r requires 0 <= r => SplitSize(n, shards, r))
  }

  lemma {:induction false} SplitSizesPrefixSum(n: nat, shards: nat, k: nat)
    requires 0 < shards && k <= shards
    ensures Sum(SplitSizes(n, shards)[..k]) == k * (n / shards) + (if k < n % shards then k else n % shards)
    decreases k
  {
    if k > 0 {
      var caps, q := SplitSizes(n, shards), n / shards;
      SplitSizesPrefixSum(n, shards, k - 1);
      assert caps[..k][..k - 1] == caps[..k - 1];
      MulSucc(k - 1, q);
    }
  }

  lemma SplitSizesSum(n: nat, shards: nat)
    requires shards > 0
    ensures Sum(SplitSizes(n, shards)) == n
  {
    SplitSizesPrefixSum(n, shards, shards);
    assert SplitSizes(n, shards)[..shards] == SplitSizes(n, shards);
    assert n == shards * (n / shards) + n % shards;
  }

  /** The bins are a permutation of all rows cut to the `torch.tensor_split` sizes. */
  ghost predicate ShapedLikeTensorSplit(bins: seq<seq<nat>>, n: nat, shards: nat)
    requires shards > 0
  {
    && |bins| == shards
    && Perm(Flatten(bins), n)
    && forall r :: 0 <= r < shards ==> |bins[r]| == SplitSize(n, shards, r)
  }

  // ---------------------------------------------------------------- the greedy choice

  function EmptyBins(n: nat): (bins: seq<seq<nat>>)
    ensures |bins| == n && forall r :: 0 <= r < n ==> bins[r] == []
  {
    seq(n, _ => [])
  }

  predicate Open(bins: seq<seq<nat>>, caps: seq<nat>, r: nat) {
    r < |bins| == |caps| && |bins[r]| < caps[r]
  }

  /** Cheapest open rank among the first `k`, ties toward the lower rank. */
  ghost function BestRank(costs: seq<int>, bins: seq<seq<nat>>, caps: seq<nat>, k: nat): (best: Option<nat>)
    requires |bins| == |caps| && k <= |bins|
    ensures best.Some? ==> best.value < k && Open(bins, caps, best.value)
  {
    if k == 0 then None
    else
      var best := BestRank(costs, bins, caps, k - 1);
      if !Open(bins, caps, k - 1) then best
      else if best.Some? && Load(costs, bins[best.value]) <= Load(costs, bins[k - 1]) then best
      else Some(k - 1)
  }

  /** No open rank among the first `k` comes before the chosen one by (cost, rank). */
  lemma {:induction false} BestRankIsCheapest(costs: seq<int>, bins: seq<seq<nat>>, caps: seq<nat>, k: nat)
    requires |bins| == |caps| && k <= |bins|
    ensures
      var best := BestRank(costs, bins, caps, k);
      forall r: nat :: r < k && Open(bins, caps, r) ==>
        && best.Some?
        && var load := Load(costs, bins[best.value]);
           load < Load(costs, bins[r]) || (load == Load(costs, bins[r]) && best.value <= r)
    decreases k
  {
    if k > 0 {
      BestRankIsCheapest(costs, bins, caps, k - 1);
    }
  }

  ghost function Place(costs: seq<int>, bins: seq<seq<nat>>, caps: seq<nat>, row: nat): (bins': seq<seq<nat>>)
    requires |bins| == |caps|
    ensures |bins'| == |bins|
  {
    var best := BestRank(costs, bins, caps, |bins|);
    if best.None? then bins else bins[best.value := bins[best.value] + [row]]
  }

  /** The bins after the first `k` rows of `order` have been placed. */
  ghost function Placement(costs: seq<int>, caps: seq<nat>, order: seq<nat>, k: nat): (bins: seq<seq<nat>>)
    requires k <= |order|
    ensures |bins| == |caps|
  {
    if k == 0 then EmptyBins(|caps|) else Place(costs, Placement(costs, caps, order, k - 1), caps, order[k - 1])
  }

  /** `row` joins the open rank with the least cost so far, the lowest of those, and no other rank changes. */
  ghost predicate JoinsCheapest(
      costs: seq<int>, caps: seq<nat>, before: seq<seq<nat>>, after: seq<seq<nat>>, row: nat, rank: nat)
  {
    && |before| == |after| == |caps| && Open(before, caps, rank)
    && (forall q: nat :: Open(before, caps, q) && q != rank ==>
          || Load(costs, before[rank]) < Load(costs, before[q])
          || (Load(costs, before[rank]) == Load(costs, before[q]) && rank < q))
    && after[rank] == before[rank] + [row]
    && forall q :: 0 <= q < |before| && q != rank ==> after[q] == before[q]
  }

  // ---------------------------------------------------------------- every row finds a rank

  lemma {:induction false} FlattenLength(bins: seq<seq<nat>>)
    ensures |Flatten(bins)| == Sum(Sizes(bins))
    decreases |bins|
  {
    if bins != [] {
      FlattenLength(bins[..|bins| - 1]);
      assert Sizes(bins)[..|bins| - 1] == Sizes(bins[..|bins| - 1]);
    }
  }

  ghost predicate WithinCaps(bins: seq<seq<nat>>, caps: seq<nat>) {
    |bins| == |caps| && forall r :: 0 <= r < |bins| ==> |bins[r]| <= caps[r]
  }

  /** Each placement of the greedy run sends the next row to the cheapest open rank. */
  lemma PlacementStep(costs: seq<int>, caps: seq<nat>, order: seq<nat>, k: nat) returns (rank: nat)
    requires k < |order| && |order| <= Sum(caps)
    ensures JoinsCheapest(
              costs, caps, Placement(costs, caps, order, k), Placement(costs, caps, order, k + 1), order[k], rank)
  {
    var before := Placement(costs, caps, order, k);
    PlacementHolds(costs, caps, order, k);
    OpenRankExists(costs, before, caps, order[..k]);
    BestRankIsCheapest(costs, before, caps, |before|);
    rank := BestRank(costs, before, caps, |before|).value;
  }

  /** After `k` placements the bins hold exactly the first `k` rows of the order. */
  lemma {:induction false} PlacementHolds(costs: seq<int>, caps: seq<nat>, order: seq<nat>, k: nat)
    requires k <= |order| && |order| <= Sum(caps)
    ensures WithinCaps(Placement(costs, caps, order, k), caps)
    ensures multiset(Flatten(Placement(costs, caps, order, k))) == multiset(order[..k])
    decreases k
  {
    if k == 0 {
      FlattenEmpty(|caps|);
    } else {
      var before := Placement(costs, caps, order, k - 1);
      PlacementHolds(costs, caps, order, k - 1);
      OpenRankExists(costs, before, caps, order[..k - 1]);
      PlaceHolds(costs, before, caps, order[k - 1]);
      ContentNext(before, Placement(costs, caps, order, k), order, k);
    }
  }

  lemma PlaceHolds(costs: seq<int>, bins: seq<seq<nat>>, caps: seq<nat>, row: nat)
    requires WithinCaps(bins, caps) && BestRank(costs, bins, caps, |bins|).Some?
    ensures WithinCaps(Place(costs, bins, caps, row), caps)
    ensures multiset(Flatten(Place(costs, bins, caps, row))) == multiset(Flatten(bins)) + multiset{row}
  {
    FlattenGrowOne(bins, BestRank(costs, bins, caps, |bins|).value, row);
  }

  lemma {:induction false} FlattenEmpty(n: nat)
    ensures Flatten(EmptyBins(n)) == []
    decreases n
  {
    if n > 0 {
      FlattenEmpty(n - 1);
      assert EmptyBins(n)[..n - 1] == EmptyBins(n - 1);
    }
  }

  lemma AllClosedIsFull(bins: seq<seq<nat>>, caps: seq<nat>)
    requires WithinCaps(bins, caps) && forall r: nat :: r < |bins| ==> !Open(bins, caps, r)
    ensures |Flatten(bins)| == Sum(caps)
  {
    FlattenLength(bins);
    forall r: nat | r < |bins|
      ensures Sizes(bins)[r] == caps[r]
    {
      assert !Open(bins, caps, r);
    }
    assert Sizes(bins) == caps;
  }

  /** The "Unable to assign row" error cannot be reached. */
  lemma OpenRankExists(costs: seq<int>, bins: seq<seq<nat>>, caps: seq<nat>, placed: seq<nat>)
    requires WithinCaps(bins, caps) && multiset(Flatten(bins)) == multiset(placed) && |placed| < Sum(caps)
    ensures BestRank(costs, bins, caps, |bins|).Some?
  {
    BestRankIsCheapest(costs, bins, caps, |bins|);
    assert |multiset(Flatten(bins))| == |multiset(placed)|;
    if forall r: nat :: r < |bins| ==> !Open(bins, caps, r) {
      AllClosedIsFull(bins, caps);
      assert false;
    }
  }

  // ---------------------------------------------------------------- balance

  /** The first `p` rows of rank `a` cost at most `slack` more than the first `p - 1` rows of rank `b`. */
  ghost predicate Follows(costs: seq<int>, bins: seq<seq<nat>>, slack: int, a: nat, b: nat, p: nat) {
    a < |bins| && b < |bins| && 0 < p <= |bins[a]| && p - 1 <= |bins[b]| ==>
      Load(costs, bins[a][..p]) <= Load(costs, bins[b][..p - 1]) + slack
  }

  ghost predicate PrefixBalanced(costs: seq<int>, bins: seq<seq<nat>>, slack: int) {
    forall a: nat, b: nat, p: nat :: Follows(costs, bins, slack, a, b, p)
  }

  /** If rank `b` is still open, it costs at least as much as rank `a` did before its row number `q`. */
  ghost predicate Leads(costs: seq<int>, bins: seq<seq<nat>>, caps: seq<nat>, a: nat, b: nat, q: nat) {
    a < |bins| && b < |bins| && Open(bins, caps, b) && q < |bins[a]| ==>
      Load(costs, bins[a][..q]) <= Load(costs, bins[b])
  }

  ghost predicate OpenRanksLead(costs: seq<int>, bins: seq<seq<nat>>, caps: seq<nat>) {
    forall a: nat, b: nat, q: nat :: Leads(costs, bins, caps, a, b, q)
  }

  lemma LoadPrefixStep(costs: seq<int>, rows: seq<nat>, p: nat)
    requires p < |rows|
    ensures Load(costs, rows[..p + 1]) == Load(costs, rows[..p]) + At(costs, rows[p])
  {
    assert rows[..p + 1][..p] == rows[..p];
  }

  lemma {:induction false} LoadPrefixMonotone(costs: seq<int>, rows: seq<nat>, p: nat)
    requires p <= |rows| && forall i :: 0 <= i < |costs| ==> costs[i] >= 0
    ensures Load(costs, rows[..p]) <= Load(costs, rows)
  {
    LoadAppend(costs, rows[..p], rows[p..]);
    LoadNonNegative(costs, rows[p..]);
    assert rows == rows[..p] + rows[p..];
  }

  /** The heart of the balance bound: one greedy placement of the cheapest row so far keeps it. */
  lemma PlaceKeepsPrefixBalance(
      costs: seq<int>, bins: seq<seq<nat>>, caps: seq<nat>, row: nat, slack: int, rank: nat, a: nat, b: nat, p: nat)
    requires |bins| == |caps| && rank < |bins| && a < |bins| && b < |bins|
    requires forall i :: 0 <= i < |costs| ==> 0 <= costs[i] <= slack
    requires slack >= 0 && PrefixBalanced(costs, bins, slack) && OpenRanksLead(costs, bins, caps)
    requires Open(bins, caps, rank) && AllAtLeast(costs, bins, At(costs, row))
    ensures Follows(costs, bins[rank := bins[rank] + [row]], slack, a, b, p)
  {
    var bins' := bins[rank := bins[rank] + [row]];
    if 0 < p <= |bins'[a]| && p - 1 <= |bins'[b]| {
      LoadPrefixStep(costs, bins'[a], p - 1);
      if p <= |bins[a]| && p - 1 <= |bins[b]| {
        assert Follows(costs, bins, slack, a, b, p);
        assert bins'[a][..p] == bins[a][..p] && bins'[b][..p - 1] == bins[b][..p - 1];
      } else if p > |bins[a]| {
        // The new row is row number p of its own rank: compare it with row p - 1 of the other.
        assert a == rank && bins'[a][p - 1] == row && bins'[a][..p - 1] == bins[a][..p - 1];
        if b == rank {
          assert bins'[b][..p - 1] == bins[a][..p - 1];
        } else if p > 1 {
          assert Follows(costs, bins, slack, a, b, p - 1);
          LoadPrefixStep(costs, bins[b], p - 2);
          assert bins'[b][..p - 1] == bins[b][..p - 1];
        }
      } else {
        // The new row is row number p - 1 of rank b, which was open when row p of rank a came.
        assert b == rank && a != rank && bins'[b][..p - 1] == bins[b] + [row];
        LoadAppend(costs, bins[b], [row]);
        LoadOne(costs, row);
        assert bins'[a][..p - 1] == bins[a][..p - 1];
        assert Leads(costs, bins, caps, a, b, p - 1);
      }
    }
  }

  lemma PlaceKeepsLead(
      costs: seq<int>, bins: seq<seq<nat>>, caps: seq<nat>, row: nat, rank: nat, a: nat, b: nat, q: nat)
    requires |bins| == |caps| && rank < |bins| && a < |bins| && b < |bins|
    requires forall i :: 0 <= i < |costs| ==> 0 <= costs[i]
    requires OpenRanksLead(costs, bins, caps) && Open(bins, caps, rank)
    requires forall r: nat :: r < |bins| && Open(bins, caps, r) ==> Load(costs, bins[rank]) <= Load(costs, bins[r])
    ensures Leads(costs, bins[rank := bins[rank] + [row]], caps, a, b, q)
  {
    var bins' := bins[rank := bins[rank] + [row]];
    if Open(bins', caps, b) && q < |bins'[a]| {
      assert Open(bins, caps, b);
      LoadAppend(costs, bins[rank], [row]);
      LoadOne(costs, row);
      if q < |bins[a]| {
        assert Leads(costs, bins, caps, a, b, q);
        assert bins'[a][..q] == bins[a][..q];
      } else {
        assert a == rank && bins'[a][..q] == bins[rank];
      }
    }
  }

  lemma PlaceKeepsBalance(costs: seq<int>, bins: seq<seq<nat>>, caps: seq<nat>, row: nat, slack: int)
    requires |bins| == |caps| && BestRank(costs, bins, caps, |bins|).Some?
    requires slack >= 0 && forall i :: 0 <= i < |costs| ==> 0 <= costs[i] <= slack
    requires PrefixBalanced(costs, bins, slack) && OpenRanksLead(costs, bins, caps)
    requires AllAtLeast(costs, bins, At(costs, row))
    ensures PrefixBalanced(costs, Place(costs, bins, caps, row), slack)
    ensures OpenRanksLead(costs, Place(costs, bins, caps, row), caps)
  {
    var rank := BestRank(costs, bins, caps, |bins|).value;
    var bins' := bins[rank := bins[rank] + [row]];
    BestRankIsCheapest(costs, bins, caps, |bins|);
    forall a: nat, b: nat, p: nat
      ensures Follows(costs, bins', slack, a, b, p)
    {
      if a < |bins| && b < |bins| {
        PlaceKeepsPrefixBalance(costs, bins, caps, row, slack, rank, a, b, p);
      }
    }
    forall a: nat, b: nat, q: nat
      ensures Leads(costs, bins', caps, a, b, q)
    {
      if a < |bins| && b < |bins| {
        PlaceKeepsLead(costs, bins, caps, row, rank, a, b, q);
      }
    }
  }

  lemma {:induction false} PlacementBalanced(costs: seq<int>, caps: seq<nat>, order: seq<nat>, k: nat, slack: int)
    requires Descending(costs, order) && |order| == |costs| && k <= |costs| <= Sum(caps)
    requires slack >= 0 && forall i :: 0 <= i < |costs| ==> 0 <= costs[i] <= slack
    ensures PrefixBalanced(costs, Placement(costs, caps, order, k), slack)
    ensures OpenRanksLead(costs, Placement(costs, caps, order, k), caps)
    decreases k
  {
    if k == 0 {
      EmptyIsBalanced(costs, caps, slack);
    } else {
      var bins := Placement(costs, caps, order, k - 1);
      PlacementBalanced(costs, caps, order, k - 1, slack);
      PlacementHolds(costs, caps, order, k - 1);
      NextRowKeepsBalance(costs, bins, caps, order, k - 1, slack);
    }
  }

  lemma EmptyIsBalanced(costs: seq<int>, caps: seq<nat>, slack: int)
    ensures PrefixBalanced(costs, EmptyBins(|caps|), slack) && OpenRanksLead(costs, EmptyBins(|caps|), caps)
  {
    var bins := EmptyBins(|caps|);
    forall a: nat, b: nat, p: nat
      ensures Follows(costs, bins, slack, a, b, p) && Leads(costs, bins, caps, a, b, p)
    {
      assert a < |bins| ==> bins[a] == [];
    }
  }

  lemma NextRowKeepsBalance(
      costs: seq<int>, bins: seq<seq<nat>>, caps: seq<nat>, order: seq<nat>, k: nat, slack: int)
    requires Descending(costs, order) && |order| == |costs| && k < |costs| <= Sum(caps)
    requires slack >= 0 && forall i :: 0 <= i < |costs| ==> 0 <= costs[i] <= slack
    requires WithinCaps(bins, caps) && multiset(Flatten(bins)) == multiset(order[..k])
    requires PrefixBalanced(costs, bins, slack) && OpenRanksLead(costs, bins, caps)
    ensures PrefixBalanced(costs, Place(costs, bins, caps, order[k]), slack)
    ensures OpenRanksLead(costs, Place(costs, bins, caps, order[k]), caps)
  {
    OpenRankExists(costs, bins, caps, order[..k]);
    PlacedAreHeavier(costs, order, bins, k);
    PlaceKeepsBalance(costs, bins, caps, order[k], slack);
  }

  // ---------------------------------------------------------------- the result

  /** The bins before the final sort of each rank. */
  ghost function LptBins(costs: seq<int>, shards: nat): seq<seq<nat>>
    requires 0 < shards
    requires |HeaviestOrder(costs)| == |costs|
  {
    Placement(costs, SplitSizes(|costs|, shards), HeaviestOrder(costs), |costs|)
  }

  ghost predicate SortedCopies(from: seq<seq<nat>>, to: seq<seq<nat>>) {
    && |to| == |from|
    && forall r :: 0 <= r < |to| ==> to[r] == SortBy(Ascending(), from[r])
  }

  lemma SortedCopiesKeepContent(from: seq<seq<nat>>, to: seq<seq<nat>>)
    requires SortedCopies(from, to)
    ensures multiset(Flatten(to)) == multiset(Flatten(from))
    ensures forall r :: 0 <= r < |to| ==> multiset(to[r]) == multiset(from[r]) && |to[r]| == |from[r]|
    ensures forall r :: 0 <= r < |to| ==> SortedBy(Ascending(), to[r])
  {
    AscendingIsTotal();
    forall r | 0 <= r < |to|
      ensures multiset(to[r]) == multiset(from[r]) && |to[r]| == |from[r]| && SortedBy(Ascending(), to[r])
    {
      SortBySorts(Ascending(), from[r]);
    }
    SamePartsSameContent(from, to);
  }

  lemma {:induction false} SamePartsSameContent(from: seq<seq<nat>>, to: seq<seq<nat>>)
    requires |from| == |to| && forall r :: 0 <= r < |to| ==> multiset(to[r]) == multiset(from[r])
    ensures multiset(Flatten(to)) == multiset(Flatten(from))
    decreases |to|
  {
    if to != [] {
      SamePartsSameContent(from[..|to| - 1], to[..|to| - 1]);
    }
  }

  /** Shape of the result, for any costs. */
  lemma LptShape(costs: seq<int>, shards: nat, bins: seq<seq<nat>>)
    requires 0 < shards
    requires |HeaviestOrder(costs)| == |costs| && SortedCopies(LptBins(costs, shards), bins)
    ensures ShapedLikeTensorSplit(bins, |costs|, shards)
    ensures forall r :: 0 <= r < |bins| ==> SortedBy(Ascending(), bins[r])
  {
    var caps, order := SplitSizes(|costs|, shards), HeaviestOrder(costs);
    SplitSizesSum(|costs|, shards);
    HeaviestOrderSorts(costs);
    PlacementHolds(costs, caps, order, |costs|);
    assert order[..|costs|] == order;
    SortedCopiesKeepContent(LptBins(costs, shards), bins);
    FlattenLength(bins);
    assert |multiset(Flatten(bins))| == |multiset(order)|;
    SumTight(Sizes(bins), caps);
  }

  /** Any two ranks end with loads at most one largest cost apart. */
  lemma LptBalance(costs: seq<int>, shards: nat, bins: seq<seq<nat>>, slack: int, a: nat, b: nat)
    requires 0 < shards
    requires |HeaviestOrder(costs)| == |costs| && SortedCopies(LptBins(costs, shards), bins)
    requires slack >= 0 && forall i :: 0 <= i < |costs| ==> 0 <= costs[i] <= slack
    requires a < |bins| && b < |bins|
    ensures Load(costs, bins[a]) - Load(costs, bins[b]) <= slack
  {
    var raw := LptBins(costs, shards);
    SplitSizesSum(|costs|, shards);
    LptShape(costs, shards, bins);
    HeaviestOrderSorts(costs);
    PlacementBalanced(costs, SplitSizes(|costs|, shards), HeaviestOrder(costs), |costs|, slack);
    SortedCopiesKeepContent(raw, bins);
    LoadPermutation(costs, bins[a], raw[a]);
    LoadPermutation(costs, bins[b], raw[b]);
    var p := |raw[a]|;
    LoadPrefixMonotone(costs, raw[b], 0);
    if p > 0 {
      assert raw[a][..p] == raw[a];
      assert Follows(costs, raw, slack, a, b, p);
      LoadPrefixMonotone(costs, raw[b], p - 1);
    }
  }

  /** The largest single cost, and 0 when there is none. */
  function MaxCost(costs: seq<int>): (m: int)
    ensures m >= 0 && forall i :: 0 <= i < |costs| ==> costs[i] <= m
    ensures m == 0 || m in costs
  {
    if costs == [] then 0
    else
      var m := MaxCost(costs[..|costs| - 1]);
      if costs[|costs| - 1] > m then costs[|costs| - 1] else m
  }

  ghost predicate Balanced(costs: seq<int>, bins: seq<seq<nat>>, slack: int) {
    forall a, b :: 0 <= a < |bins| && 0 <= b < |bins| ==> Load(costs, bins[a]) - Load(costs, bins[b]) <= slack
  }

  method AssignRowLpt(costs: seq<int>, numShards: int) returns (r: Result<seq<seq<nat>>, LptError>)
    ensures numShards < 1 ==> r == Err(NoShards)
    ensures 1 <= numShards && |costs| < numShards ==> r == Err(BatchTooSmall)
    ensures 1 <= numShards <= |costs| ==>
              && r.Ok? && ShapedLikeTensorSplit(r.value, |costs|, numShards)
              && |HeaviestOrder(costs)| == |costs| && SortedCopies(LptBins(costs, numShards), r.value)
    ensures r.Ok? && (forall i :: 0 <= i < |costs| ==> 0 <= costs[i]) ==> Balanced(costs, r.value, MaxCost(costs))
  {
    if numShards < 1 {
      return Err(NoShards);
    }
    var n := |costs|;
    if n < numShards {
      return Err(BatchTooSmall);
    }
    var order := HeaviestOrder(costs);
    HeaviestOrderSorts(costs);
    var caps := SplitSizes(n, numShards);
    SplitSizesSum(n, numShards);
    var assignment := Greedy(costs, caps, order);
    if assignment.Err? {
      return assignment;
    }
    var sorted: seq<seq<nat>> := [];
    for s := 0 to numShards
      invariant |sorted| == s
      invariant forall j :: 0 <= j < s ==> sorted[j] == SortBy(Ascending(), assignment.value[j])
    {
      sorted := sorted + [SortBy(Ascending(), assignment.value[s])];
    }
    LptShape(costs, numShards, sorted);
    if forall i :: 0 <= i < n ==> 0 <= costs[i] {
      forall a, b | 0 <= a < numShards && 0 <= b < numShards
        ensures Load(costs, sorted[a]) - Load(costs, sorted[b]) <= MaxCost(costs)
      {
        LptBalance(costs, numShards, sorted, MaxCost(costs), a, b);
      }
    }
    return Ok(sorted);
  }

  /** The greedy pass over the sorted rows. */
  method Greedy(costs: seq<int>, caps: seq<nat>, order: seq<nat>) returns (r: Result<seq<seq<nat>>, LptError>)
    requires |order| <= Sum(caps) && forall i :: 0 <= i < |order| ==> order[i] < |costs|
    ensures r == Ok(Placement(costs, caps, order, |order|))
  {
    var assignment := EmptyBins(|caps|);
    var shardCosts: seq<int> := seq(|caps|, _ => 0);
    for k := 0 to |order|
      invariant assignment == Placement(costs, caps, order, k)
      invariant |shardCosts| == |caps|
      invariant forall s :: 0 <= s < |caps| ==> shardCosts[s] == Load(costs, assignment[s])
    {
      PlacementHolds(costs, caps, order, k);
      OpenRankExists(costs, assignment, caps, order[..k]);
      var row := order[k];
      var best := CheapestOpen(costs, assignment, caps, shardCosts);
      if best.None? {
        return Err(UnableToAssign(row));
      }
      var rank := best.value;
      LoadAppend(costs, assignment[rank], [row]);
      LoadOne(costs, row);
      assignment := assignment[rank := assignment[rank] + [row]];
      shardCosts := shardCosts[rank := shardCosts[rank] + costs[row]];
    }
    return Ok(assignment);
  }

  /** The minimum over the candidate ranks by (cost, rank). */
  method CheapestOpen(costs: seq<int>, bins: seq<seq<nat>>, caps: seq<nat>, shardCosts: seq<int>)
    returns (best: Option<nat>)
    requires |bins| == |caps| == |shardCosts|
    requires forall r :: 0 <= r < |bins| ==> shardCosts[r] == Load(costs, bins[r])
    ensures best == BestRank(costs, bins, caps, |bins|)
  {
    best := None;
    for r := 0 to |bins|
      invariant best == BestRank(costs, bins, caps, r)
    {
      if |bins[r]| < caps[r] && (best.None? || shardCosts[r] < shardCosts[best.value]) {
        best := Some(r);
      }
    }
  }
}
