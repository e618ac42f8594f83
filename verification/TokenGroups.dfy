/** Which rows share a model call: first-fit-decreasing token-budget groups, splitting to a
    required count, and the inverse row order of a plan
    (arctic_platform/common/packing/groups.py). */
module TokenGroups {
  import opened Basics

  datatype PlanError = BadBudget | CannotReduce | NotAPartition

  // ---------------------------------------------------------------- sorted(sorted(group) for group in groups)

  /** Python's order on lists of row indices. */
  predicate LexLe(a: seq<nat>, b: seq<nat>) {
    a == [] || (b != [] && (a[0] < b[0] || (a[0] == b[0] && LexLe(a[1..], b[1..]))))
  }

  function Lexicographic(): (seq<nat>, seq<nat>) -> bool {
    (a, b) => LexLe(a, b)
  }

  lemma {:induction false} LexTotal(a: seq<nat>, b: seq<nat>)
    ensures LexLe(a, b) || LexLe(b, a)
    decreases |a|
  {
    if a != [] && b != [] && a[0] == b[0] {
      LexTotal(a[1..], b[1..]);
    }
  }

  lemma {:induction false} LexTransitive(a: seq<nat>, b: seq<nat>, c: seq<nat>)
    requires LexLe(a, b) && LexLe(b, c)
    ensures LexLe(a, c)
    decreases |a|
  {
    if a != [] && a[0] == b[0] && b[0] == c[0] {
      LexTransitive(a[1..], b[1..], c[1..]);
    }
  }

  lemma LexicographicIsTotal()
    ensures TotalOrder(Lexicographic())
  {
    forall a, b ensures LexLe(a, b) || LexLe(b, a) {
      LexTotal(a, b);
    }
    forall a, b, c | LexLe(a, b) && LexLe(b, c) ensures LexLe(a, c) {
      LexTransitive(a, b, c);
    }
  }

  function SortEach(groups: seq<seq<nat>>): (sorted: seq<seq<nat>>)
    ensures |sorted| == |groups|
    ensures forall g :: 0 <= g < |groups| ==> sorted[g] == SortBy(Ascending(), groups[g])
  {
    seq(|groups|, g requires 0 <= g < |groups| => SortBy(Ascending(), groups[g]))
  }

  function SortGroups(groups: seq<seq<nat>>): seq<seq<nat>> {
    SortBy(Lexicographic(), SortEach(groups))
  }

  ghost predicate NonEmpty(groups: seq<seq<nat>>) {
    forall g :: 0 <= g < |groups| ==> groups[g] != []
  }

  /** Every group of `to` has the rows of some group of `from`. */
  ghost predicate SameGroups(from: seq<seq<nat>>, to: seq<seq<nat>>) {
    forall t :: 0 <= t < |to| ==> HasGroup(from, to[t])
  }

  ghost predicate HasGroup(groups: seq<seq<nat>>, rows: seq<nat>) {
    exists f :: 0 <= f < |groups| && multiset(groups[f]) == multiset(rows)
  }

  /** Ascending rows in every group, and groups in the order of their first rows. */
  ghost predicate AscendingPlan(groups: seq<seq<nat>>) {
    && (forall g, i, j :: 0 <= g < |groups| && 0 <= i < j < |groups[g]| ==> groups[g][i] < groups[g][j])
    && (forall g, h :: 0 <= g < h < |groups| && groups[g] != [] && groups[h] != [] ==> groups[g][0] < groups[h][0])
  }

  /** Rows ascend in every group, and the groups ascend as lists; rows may repeat. */
  ghost predicate SortedPlan(groups: seq<seq<nat>>) {
    && (forall g, i, j :: 0 <= g < |groups| && 0 <= i < j < |groups[g]| ==> groups[g][i] <= groups[g][j])
    && (forall g, h :: 0 <= g < h < |groups| ==> LexLe(groups[g], groups[h]))
  }

  lemma {:induction false} SortEachContent(groups: seq<seq<nat>>)
    ensures multiset(Flatten(SortEach(groups))) == multiset(Flatten(groups))
    decreases |groups|
  {
    if groups != [] {
      var k := |groups| - 1;
      SortEachContent(groups[..k]);
      AscendingIsTotal();
      SortBySorts(Ascending(), groups[k]);
      assert SortEach(groups)[..k] == SortEach(groups[..k]);
    }
  }

  lemma SortGroupsCount(groups: seq<seq<nat>>)
    ensures |SortGroups(groups)| == |groups|
  {
    LexicographicIsTotal();
    SortBySorts(Lexicographic(), SortEach(groups));
  }

  lemma SortGroupsContent(groups: seq<seq<nat>>)
    ensures multiset(SortGroups(groups)) == multiset(SortEach(groups))
    ensures |SortGroups(groups)| == |groups|
    ensures multiset(Flatten(SortGroups(groups))) == multiset(Flatten(groups))
    ensures SameGroups(groups, SortGroups(groups))
    ensures NonEmpty(groups) ==> NonEmpty(SortGroups(groups))
  {
    var each, sorted := SortEach(groups), SortGroups(groups);
    LexicographicIsTotal();
    SortBySorts(Lexicographic(), each);
    FlattenReorder(sorted, each);
    SortEachContent(groups);
    SortedGroupsMatch(groups, sorted);
  }

  lemma SortedGroupsMatch(groups: seq<seq<nat>>, sorted: seq<seq<nat>>)
    requires multiset(sorted) == multiset(SortEach(groups))
    ensures SameGroups(groups, sorted) && (NonEmpty(groups) ==> NonEmpty(sorted))
  {
    forall t | 0 <= t < |sorted|
      ensures HasGroup(groups, sorted[t])
    {
      var f := MatchingGroup(groups, sorted, t);
    }
    if NonEmpty(groups) {
      forall t | 0 <= t < |sorted|
        ensures sorted[t] != []
      {
        var f := MatchingGroup(groups, sorted, t);
      }
    }
  }

  lemma MatchingGroup(groups: seq<seq<nat>>, sorted: seq<seq<nat>>, t: nat) returns (f: nat)
    requires multiset(sorted) == multiset(SortEach(groups)) && t < |sorted|
    ensures f < |groups| && multiset(groups[f]) == multiset(sorted[t]) && |groups[f]| == |sorted[t]|
  {
    var each := SortEach(groups);
    assert sorted[t] in multiset(sorted);
    assert sorted[t] in multiset(each);
    f :| 0 <= f < |each| && each[f] == sorted[t];
    AscendingIsTotal();
    SortBySorts(Ascending(), groups[f]);
  }

  lemma SortedGroupAscends(groups: seq<seq<nat>>, n: nat, g: nat)
    requires Perm(Flatten(SortGroups(groups)), n) && g < |SortGroups(groups)|
    ensures forall i, j :: 0 <= i < j < |SortGroups(groups)[g]| ==> SortGroups(groups)[g][i] < SortGroups(groups)[g][j]
  {
    var sorted := SortGroups(groups);
    var group := sorted[g];
    SortGroupsContent(groups);
    assert group in multiset(SortEach(groups));
    var f :| 0 <= f < |groups| && SortEach(groups)[f] == group;
    AscendingIsTotal();
    SortBySorts(Ascending(), groups[f]);
    forall i, j | 0 <= i < j < |group|
      ensures group[i] < group[j]
    {
      assert Ascending()(group[i], group[j]);
      PartHasNoRepeats(sorted, n, g, i, j);
    }
  }

  lemma SortGroupsSorted(groups: seq<seq<nat>>)
    ensures SortedPlan(SortGroups(groups))
  {
    var sorted := SortGroups(groups);
    SortGroupsContent(groups);
    LexicographicIsTotal();
    SortBySorts(Lexicographic(), SortEach(groups));
    forall g, i, j | 0 <= g < |sorted| && 0 <= i < j < |sorted[g]|
      ensures sorted[g][i] <= sorted[g][j]
    {
      assert sorted[g] in multiset(SortEach(groups));
      var f :| 0 <= f < |groups| && SortEach(groups)[f] == sorted[g];
      AscendingIsTotal();
      SortBySorts(Ascending(), groups[f]);
      assert Ascending()(sorted[g][i], sorted[g][j]);
    }
    forall g, h | 0 <= g < h < |sorted|
      ensures LexLe(sorted[g], sorted[h])
    {
      assert Lexicographic()(sorted[g], sorted[h]);
    }
  }

  lemma SortGroupsAscend(groups: seq<seq<nat>>, n: nat)
    requires Perm(Flatten(groups), n)
    ensures AscendingPlan(SortGroups(groups))
  {
    var sorted := SortGroups(groups);
    SortGroupsContent(groups);
    LexicographicIsTotal();
    SortBySorts(Lexicographic(), SortEach(groups));
    forall g | 0 <= g < |sorted|
      ensures forall i, j :: 0 <= i < j < |sorted[g]| ==> sorted[g][i] < sorted[g][j]
    {
      SortedGroupAscends(groups, n, g);
    }
    forall g, h | 0 <= g < h < |sorted| && sorted[g] != [] && sorted[h] != []
      ensures sorted[g][0] < sorted[h][0]
    {
      assert Lexicographic()(sorted[g], sorted[h]);
      if sorted[g][0] == sorted[h][0] {
        PartsDisjoint(sorted, n, g, h, sorted[g][0]);
      }
    }
  }

  lemma PartHasNoRepeats(parts: seq<seq<nat>>, n: nat, g: nat, i: nat, j: nat)
    requires Perm(Flatten(parts), n) && g < |parts| && i < j < |parts[g]|
    ensures parts[g][i] != parts[g][j]
  {
    if parts[g][i] == parts[g][j] {
      TwiceListed(parts[g], i, j);
      FlattenRemove(parts, g);
      assert multiset(Flatten(parts))[parts[g][i]] >= 2;
      RangeMultiplicity(n);
    }
  }

  // ---------------------------------------------------------------- first fit decreasing

  /** First group from `i` on that still has room for the row, or the number of groups. */
  ghost function FirstFit(lengths: seq<nat>, budget: nat, groups: seq<seq<nat>>, row: nat, i: nat): (fit: nat)
    requires i <= |groups|
    ensures i <= fit <= |groups|
    decreases |groups| - i
  {
    if i == |groups| || Load(lengths, groups[i]) + At(lengths, row) <= budget then i
    else FirstFit(lengths, budget, groups, row, i + 1)
  }

  lemma {:induction false} FirstFitIsFirst(lengths: seq<nat>, budget: nat, groups: seq<seq<nat>>, row: nat, i: nat)
    requires i <= |groups|
    ensures
      var fit := FirstFit(lengths, budget, groups, row, i);
      && (fit < |groups| ==> Load(lengths, groups[fit]) + At(lengths, row) <= budget)
      && forall g :: i <= g < fit ==> Load(lengths, groups[g]) + At(lengths, row) > budget
    decreases |groups| - i
  {
    if i < |groups| {
      FirstFitIsFirst(lengths, budget, groups, row, i + 1);
    }
  }

  ghost function PlaceRow(lengths: seq<nat>, budget: nat, groups: seq<seq<nat>>, row: nat): seq<seq<nat>> {
    var fit := FirstFit(lengths, budget, groups, row, 0);
    if fit == |groups| then groups + [[row]] else groups[fit := groups[fit] + [row]]
  }

  /** The groups after the first `k` rows of the order. */
  ghost function Plan(lengths: seq<nat>, budget: nat, order: seq<nat>, k: nat): seq<seq<nat>>
    requires k <= |order|
  {
    if k == 0 then [] else PlaceRow(lengths, budget, Plan(lengths, budget, order, k - 1), order[k - 1])
  }

  /** Within the budget, or one row that is over it alone. */
  ghost predicate WithinBudget(lengths: seq<nat>, budget: nat, group: seq<nat>) {
    Load(lengths, group) <= budget || |group| == 1
  }

  ghost predicate AllWithinBudget(lengths: seq<nat>, budget: nat, groups: seq<seq<nat>>) {
    forall g :: 0 <= g < |groups| ==> WithinBudget(lengths, budget, groups[g])
  }

  /** Group `g` had no room for the first row of group `h`. */
  ghost predicate NoRoom(lengths: seq<nat>, budget: nat, groups: seq<seq<nat>>, g: nat, h: nat) {
    g < h < |groups| && groups[h] != [] ==> Load(lengths, groups[g]) + At(lengths, groups[h][0]) > budget
  }

  /** A group was opened only when every earlier one had no room for its first row. */
  ghost predicate OpenedOnlyWhenFull(lengths: seq<nat>, budget: nat, groups: seq<seq<nat>>) {
    forall g: nat, h: nat :: NoRoom(lengths, budget, groups, g, h)
  }

  ghost predicate Sound(lengths: seq<nat>, budget: nat, groups: seq<seq<nat>>) {
    NonEmpty(groups) && AllWithinBudget(lengths, budget, groups) && OpenedOnlyWhenFull(lengths, budget, groups)
  }

  lemma LoadGrows(lengths: seq<nat>, group: seq<nat>, row: nat)
    ensures Load(lengths, group + [row]) == Load(lengths, group) + At(lengths, row)
  {
    assert (group + [row])[..|group|] == group;
  }

  lemma JoinKeeps(lengths: seq<nat>, budget: nat, groups: seq<seq<nat>>, row: nat, fit: nat)
    requires Sound(lengths, budget, groups)
    requires fit < |groups| && Load(lengths, groups[fit]) + At(lengths, row) <= budget
    ensures Sound(lengths, budget, groups[fit := groups[fit] + [row]])
  {
    var joined := groups[fit := groups[fit] + [row]];
    LoadGrows(lengths, groups[fit], row);
    forall g | 0 <= g < |joined| ensures WithinBudget(lengths, budget, joined[g]) {
      if g != fit {
        assert WithinBudget(lengths, budget, groups[g]);
      }
    }
    forall g: nat, h: nat ensures NoRoom(lengths, budget, joined, g, h) {
      assert NoRoom(lengths, budget, groups, g, h);
    }
  }

  lemma OpenKeeps(lengths: seq<nat>, budget: nat, groups: seq<seq<nat>>, row: nat)
    requires Sound(lengths, budget, groups)
    requires forall g :: 0 <= g < |groups| ==> Load(lengths, groups[g]) + At(lengths, row) > budget
    ensures Sound(lengths, budget, groups + [[row]])
  {
    var grown := groups + [[row]];
    forall g | 0 <= g < |grown| ensures WithinBudget(lengths, budget, grown[g]) {
      if g < |groups| {
        assert WithinBudget(lengths, budget, groups[g]);
      }
    }
    forall g: nat, h: nat ensures NoRoom(lengths, budget, grown, g, h) {
      assert NoRoom(lengths, budget, groups, g, h);
    }
  }

  lemma PlaceRowContent(lengths: seq<nat>, budget: nat, groups: seq<seq<nat>>, row: nat)
    ensures multiset(Flatten(PlaceRow(lengths, budget, groups, row))) == multiset(Flatten(groups)) + multiset{row}
  {
    var fit := FirstFit(lengths, budget, groups, row, 0);
    if fit == |groups| {
      FlattenOpenOne(groups, row);
    } else {
      FlattenGrowOne(groups, fit, row);
    }
  }

  lemma {:induction false} PlanIsSound(lengths: seq<nat>, budget: nat, order: seq<nat>, k: nat)
    requires k <= |order|
    ensures Sound(lengths, budget, Plan(lengths, budget, order, k))
    decreases k
  {
    if k > 0 {
      var groups, row := Plan(lengths, budget, order, k - 1), order[k - 1];
      PlanIsSound(lengths, budget, order, k - 1);
      var fit := FirstFit(lengths, budget, groups, row, 0);
      FirstFitIsFirst(lengths, budget, groups, row, 0);
      if fit < |groups| {
        JoinKeeps(lengths, budget, groups, row, fit);
      } else {
        OpenKeeps(lengths, budget, groups, row);
      }
    }
  }

  lemma PlaceNextContent(lengths: seq<nat>, budget: nat, groups: seq<seq<nat>>, order: seq<nat>, k: nat)
    requires 0 < k <= |order| && multiset(Flatten(groups)) == multiset(order[..k - 1])
    ensures multiset(Flatten(PlaceRow(lengths, budget, groups, order[k - 1]))) == multiset(order[..k])
  {
    PlaceRowContent(lengths, budget, groups, order[k - 1]);
    ContentNext(groups, PlaceRow(lengths, budget, groups, order[k - 1]), order, k);
  }

  lemma {:induction false} PlanContent(lengths: seq<nat>, budget: nat, order: seq<nat>, k: nat)
    requires k <= |order|
    ensures multiset(Flatten(Plan(lengths, budget, order, k))) == multiset(order[..k])
    decreases k
  {
    if k == 0 {
      assert order[..k] == [];
    } else {
      PlanContent(lengths, budget, order, k - 1);
      PlaceNextContent(lengths, budget, Plan(lengths, budget, order, k - 1), order, k);
    }
  }

  /** Any two groups together are over the budget. */
  ghost predicate PairsExceed(lengths: seq<nat>, budget: nat, groups: seq<seq<nat>>) {
    forall g, h :: 0 <= g < |groups| && 0 <= h < |groups| && g != h ==>
      Load(lengths, groups[g]) + Load(lengths, groups[h]) > budget
  }

  lemma FirstRowLoad(lengths: seq<nat>, group: seq<nat>)
    requires group != []
    ensures Load(lengths, group) >= At(lengths, group[0])
  {
    assert group == [group[0]] + group[1..];
    LoadAppend(lengths, [group[0]], group[1..]);
    LoadOne(lengths, group[0]);
    LoadNonNegative(lengths, group[1..]);
  }

  lemma OpenedFullPairsExceed(lengths: seq<nat>, budget: nat, groups: seq<seq<nat>>)
    requires NonEmpty(groups) && OpenedOnlyWhenFull(lengths, budget, groups)
    ensures PairsExceed(lengths, budget, groups)
  {
    forall g, h | 0 <= g < |groups| && 0 <= h < |groups| && g != h
      ensures Load(lengths, groups[g]) + Load(lengths, groups[h]) > budget
    {
      var low, high := if g < h then g else h, if g < h then h else g;
      FirstRowLoad(lengths, groups[high]);
      assert NoRoom(lengths, budget, groups, low, high);
    }
  }

  /** Sorting a plan keeps what it says about loads. */
  lemma SortKeepsBudget(lengths: seq<nat>, budget: nat, groups: seq<seq<nat>>)
    requires AllWithinBudget(lengths, budget, groups)
    ensures AllWithinBudget(lengths, budget, SortGroups(groups))
  {
    var sorted := SortGroups(groups);
    SortGroupsContent(groups);
    forall t | 0 <= t < |sorted|
      ensures WithinBudget(lengths, budget, sorted[t])
    {
      var f := MatchingGroup(groups, sorted, t);
      LoadPermutation(lengths, groups[f], sorted[t]);
      assert WithinBudget(lengths, budget, groups[f]);
    }
  }

  lemma SortKeepsPairs(lengths: seq<nat>, budget: nat, groups: seq<seq<nat>>, n: nat)
    requires Perm(Flatten(groups), n) && NonEmpty(groups) && PairsExceed(lengths, budget, groups)
    ensures PairsExceed(lengths, budget, SortGroups(groups))
  {
    var sorted := SortGroups(groups);
    SortGroupsContent(groups);
    forall t, u | 0 <= t < |sorted| && 0 <= u < |sorted| && t != u
      ensures Load(lengths, sorted[t]) + Load(lengths, sorted[u]) > budget
    {
      var f := MatchingGroup(groups, sorted, t);
      var e := MatchingGroup(groups, sorted, u);
      LoadPermutation(lengths, groups[f], sorted[t]);
      LoadPermutation(lengths, groups[e], sorted[u]);
      if f == e {
        assert sorted[t][0] in multiset(sorted[t]);
        assert sorted[t][0] in multiset(sorted[u]);
        PartsDisjoint(sorted, n, t, u, sorted[t][0]);
      }
    }
  }

  /** The plan of a shard's rows under a budget. */
  ghost function BudgetPlan(lengths: seq<nat>, budget: nat): seq<seq<nat>>
    requires |HeaviestOrder(lengths)| == |lengths|
  {
    SortGroups(Plan(lengths, budget, HeaviestOrder(lengths), |lengths|))
  }

  /** First-fit-decreasing, as the source runs it. */
  method TokenBudgetGroups(lengths: seq<nat>, budget: int) returns (r: Result<seq<seq<nat>>, PlanError>)
    ensures budget <= 0 <==> r == Err(BadBudget)
    ensures budget > 0 ==>
              && r.Ok? && |HeaviestOrder(lengths)| == |lengths|
              && r.value == BudgetPlan(lengths, budget)
    ensures r.Ok? ==>
              && Perm(Flatten(r.value), |lengths|) && NonEmpty(r.value) && AscendingPlan(r.value)
              && AllWithinBudget(lengths, budget, r.value) && PairsExceed(lengths, budget, r.value)
  {
    if budget <= 0 {
      return Err(BadBudget);
    }
    var order := HeaviestOrder(lengths);
    SortBySorts(HeaviestFirst(lengths), Range(|lengths|));
    PermMember(order, |lengths|);
    var groups := FirstFitDecreasing(lengths, budget, order);
    PlanIsSound(lengths, budget, order, |order|);
    PlanContent(lengths, budget, order, |order|);
    assert order[..|order|] == order;
    OpenedFullPairsExceed(lengths, budget, groups);
    SortGroupsContent(groups);
    SortGroupsAscend(groups, |lengths|);
    SortKeepsBudget(lengths, budget, groups);
    SortKeepsPairs(lengths, budget, groups, |lengths|);
    return Ok(SortGroups(groups));
  }

  method FirstWithRoom(lengths: seq<nat>, budget: nat, groups: seq<seq<nat>>, loads: seq<nat>, row: nat)
    returns (g: nat)
    requires row < |lengths| && |loads| == |groups|
    requires forall h :: 0 <= h < |groups| ==> loads[h] == Load(lengths, groups[h])
    ensures g == FirstFit(lengths, budget, groups, row, 0)
  {
    g := 0;
    while g < |loads| && loads[g] + lengths[row] > budget
      invariant 0 <= g <= |loads|
      invariant FirstFit(lengths, budget, groups, row, 0) == FirstFit(lengths, budget, groups, row, g)
    {
      g := g + 1;
    }
  }

  method FirstFitDecreasing(lengths: seq<nat>, budget: nat, order: seq<nat>) returns (groups: seq<seq<nat>>)
    requires forall x :: x in order ==> 0 <= x < |lengths|
    ensures groups == Plan(lengths, budget, order, |order|)
  {
    groups := [];
    var loads: seq<nat> := [];
    for k := 0 to |order|
      invariant groups == Plan(lengths, budget, order, k)
      invariant |loads| == |groups| && forall g :: 0 <= g < |groups| ==> loads[g] == Load(lengths, groups[g])
    {
      var row := order[k];
      assert row in order;
      var g := FirstWithRoom(lengths, budget, groups, loads, row);
      if g < |loads| {
        LoadGrows(lengths, groups[g], row);
        groups := groups[g := groups[g] + [row]];
        loads := loads[g := loads[g] + lengths[row]];
      } else {
        LoadOne(lengths, row);
        groups := groups + [[row]];
        loads := loads + [lengths[row]];
      }
    }
  }

  // ---------------------------------------------------------------- quality of the plan

  lemma FlattenLastTwo(lengths: seq<nat>, groups: seq<seq<nat>>)
    requires |groups| >= 2
    ensures
      var n := |groups|;
      Load(lengths, Flatten(groups))
      == Load(lengths, Flatten(groups[..n - 2])) + Load(lengths, groups[n - 2]) + Load(lengths, groups[n - 1])
  {
    var n := |groups|;
    assert groups[..n - 1][..n - 2] == groups[..n - 2];
    LoadAppend(lengths, Flatten(groups[..n - 1]), groups[n - 1]);
    LoadAppend(lengths, Flatten(groups[..n - 2]), groups[n - 2]);
  }

  lemma {:induction false} PairsOutweighBudget(lengths: seq<nat>, budget: nat, groups: seq<seq<nat>>, pairs: nat)
    requires PairsExceed(lengths, budget, groups) && pairs == |groups| / 2
    ensures pairs * (budget + 1) <= Load(lengths, Flatten(groups))
    decreases |groups|
  {
    var n := |groups|;
    if n < 2 {
      LoadNonNegative(lengths, Flatten(groups));
    } else {
      assert Load(lengths, groups[n - 2]) + Load(lengths, groups[n - 1]) > budget;
      PairsOutweighBudget(lengths, budget, groups[..n - 2], pairs - 1);
      FlattenLastTwo(lengths, groups);
      MulSucc(pairs - 1, budget + 1);
    }
  }

  lemma {:induction false} GroupsWithinBudgetBound(lengths: seq<nat>, budget: nat, groups: seq<seq<nat>>)
    requires forall g :: 0 <= g < |groups| ==> Load(lengths, groups[g]) <= budget
    ensures Load(lengths, Flatten(groups)) <= |groups| * budget
    decreases |groups|
  {
    if groups != [] {
      var k := |groups| - 1;
      GroupsWithinBudgetBound(lengths, budget, groups[..k]);
      LoadAppend(lengths, Flatten(groups[..k]), groups[k]);
      MulSucc(k, budget);
    }
  }

  lemma PlanTotal(lengths: seq<nat>, groups: seq<seq<nat>>)
    requires Perm(Flatten(groups), |lengths|)
    ensures Load(lengths, Flatten(groups)) == Sum(lengths)
  {
    LoadPermutation(lengths, Flatten(groups), Range(|lengths|));
    LoadRangeIsSum(lengths, |lengths|);
    assert lengths[..|lengths|] == lengths;
  }

  /** Half the groups times the budget is less than the tokens there are. */
  lemma HalfTheGroupsAreFull(lengths: seq<nat>, budget: nat, groups: seq<seq<nat>>, pairs: nat)
    requires Perm(Flatten(groups), |lengths|) && PairsExceed(lengths, budget, groups)
    requires pairs == |groups| / 2 >= 1
    ensures pairs * budget < Sum(lengths)
  {
    PairsOutweighBudget(lengths, budget, groups, pairs);
    PlanTotal(lengths, groups);
    MulNext(pairs, budget);
  }

  lemma SmallerFactor(a: nat, b: nat, unit: nat, total: int)
    requires a * unit < total <= b * unit
    ensures a < b
  {
    if a >= b {
      MulMonotone(unit, b, a);
      assert false;
    }
  }

  /** Any plan that keeps the budget has room for all tokens, and a plan of some rows has some group. */
  lemma BudgetPlanHoldsAll(lengths: seq<nat>, budget: nat, other: seq<seq<nat>>)
    requires Perm(Flatten(other), |lengths|)
    requires forall g :: 0 <= g < |other| ==> Load(lengths, other[g]) <= budget
    ensures Sum(lengths) <= |other| * budget
    ensures lengths != [] ==> other != []
  {
    GroupsWithinBudgetBound(lengths, budget, other);
    PlanTotal(lengths, other);
    assert |multiset(Flatten(other))| == |multiset(Range(|lengths|))|;
  }

  /** The plan uses fewer than twice the groups of any plan that keeps the budget. */
  lemma FewerThanTwiceOptimal(lengths: seq<nat>, budget: nat, groups: seq<seq<nat>>, other: seq<seq<nat>>)
    requires lengths != []
    requires Perm(Flatten(groups), |lengths|) && PairsExceed(lengths, budget, groups)
    requires Perm(Flatten(other), |lengths|)
    requires forall g :: 0 <= g < |other| ==> Load(lengths, other[g]) <= budget
    ensures |groups| <= 2 * |other| - 1
  {
    BudgetPlanHoldsAll(lengths, budget, other);
    if |groups| >= 2 {
      HalfTheGroupsAreFull(lengths, budget, groups, |groups| / 2);
      SmallerFactor(|groups| / 2, |other|, budget, Sum(lengths));
    }
  }

  // ---------------------------------------------------------------- splitting to a count

  /** First group with more than one row and the most tokens, among the first `k`. */
  ghost function Widest(lengths: seq<nat>, groups: seq<seq<nat>>, k: nat): (best: Option<nat>)
    requires k <= |groups|
    ensures best.Some? ==> best.value < k && |groups[best.value]| > 1
    ensures best.None? ==> forall g :: 0 <= g < k ==> |groups[g]| <= 1
  {
    if k == 0 then None
    else
      var best := Widest(lengths, groups, k - 1);
      if |groups[k - 1]| > 1
          && (best.None? || Load(lengths, groups[k - 1]) > Load(lengths, groups[best.value])) then Some(k - 1)
      else best
  }

  lemma {:induction false} WidestIsWidest(lengths: seq<nat>, groups: seq<seq<nat>>, k: nat)
    requires k <= |groups| && Widest(lengths, groups, k).Some?
    ensures forall g :: 0 <= g < k && |groups[g]| > 1 ==>
              Load(lengths, groups[g]) <= Load(lengths, groups[Widest(lengths, groups, k).value])
    ensures forall g :: 0 <= g < Widest(lengths, groups, k).value && |groups[g]| > 1 ==>
              Load(lengths, groups[g]) < Load(lengths, groups[Widest(lengths, groups, k).value])
    decreases k
  {
    if Widest(lengths, groups, k - 1).Some? {
      WidestIsWidest(lengths, groups, k - 1);
    }
  }

  /** First longest row of the first `k` rows of a group. */
  ghost function Longest(lengths: seq<nat>, group: seq<nat>, k: nat): (best: nat)
    requires 0 < k <= |group|
    ensures best < k
    ensures forall i :: 0 <= i < k ==> At(lengths, group[i]) <= At(lengths, group[best])
    ensures forall i :: 0 <= i < best ==> At(lengths, group[i]) < At(lengths, group[best])
  {
    if k == 1 then 0
    else
      var best := Longest(lengths, group, k - 1);
      if At(lengths, group[k - 1]) > At(lengths, group[best]) then k - 1 else best
  }

  ghost function SplitOnce(lengths: seq<nat>, groups: seq<seq<nat>>, source: nat): seq<seq<nat>>
    requires source < |groups| && |groups[source]| > 1
  {
    var group := groups[source];
    var i := Longest(lengths, group, |group|);
    groups[source := group[..i] + group[i + 1..]] + [[group[i]]]
  }

  ghost function SplitTo(lengths: seq<nat>, groups: seq<seq<nat>>, target: nat): seq<seq<nat>>
    decreases target - |groups|
  {
    var source := Widest(lengths, groups, |groups|);
    if |groups| >= target || source.None? then groups
    else SplitTo(lengths, SplitOnce(lengths, groups, source.value), target)
  }

  /** Group `s` of `before` is the first of those with most tokens among the groups of more than one row. Its
      row `i`, the first of its longest, becomes a group of its own, and no other group changes. */
  ghost predicate GivesUpRow(lengths: seq<nat>, before: seq<seq<nat>>, after: seq<seq<nat>>, s: nat, i: nat) {
    && s < |before| && i < |before[s]| && |before[s]| > 1
    && (forall g :: 0 <= g < |before| && |before[g]| > 1 ==> Load(lengths, before[g]) <= Load(lengths, before[s]))
    && (forall g :: 0 <= g < s && |before[g]| > 1 ==> Load(lengths, before[g]) < Load(lengths, before[s]))
    && (forall j :: 0 <= j < |before[s]| ==> At(lengths, before[s][j]) <= At(lengths, before[s][i]))
    && (forall j :: 0 <= j < i ==> At(lengths, before[s][j]) < At(lengths, before[s][i]))
    && |after| == |before| + 1
    && after[s] == before[s][..i] + before[s][i + 1..]
    && after[|before|] == [before[s][i]]
    && (forall g :: 0 <= g < |before| && g != s ==> after[g] == before[g])
  }

  ghost predicate SplitStep(lengths: seq<nat>, before: seq<seq<nat>>, after: seq<seq<nat>>) {
    exists s, i :: GivesUpRow(lengths, before, after, s, i)
  }

  ghost predicate SplitChain(lengths: seq<nat>, plans: seq<seq<seq<nat>>>) {
    plans != [] && forall k :: 0 < k < |plans| ==> SplitStep(lengths, plans[k - 1], plans[k])
  }

  /** `end` comes from `groups` by split steps, which stop at the target or when every group is one row. */
  ghost predicate SplitsInto(lengths: seq<nat>, groups: seq<seq<nat>>, target: nat, end: seq<seq<nat>>) {
    && |end| <= target
    && (|end| == target || forall g :: 0 <= g < |end| ==> |end[g]| <= 1)
    && exists plans :: SplitChain(lengths, plans) && plans[0] == groups && plans[|plans| - 1] == end
  }

  lemma SplitOnceIsStep(lengths: seq<nat>, groups: seq<seq<nat>>)
    requires Widest(lengths, groups, |groups|).Some?
    ensures SplitStep(lengths, groups, SplitOnce(lengths, groups, Widest(lengths, groups, |groups|).value))
  {
    var s := Widest(lengths, groups, |groups|).value;
    WidestIsWidest(lengths, groups, |groups|);
    var i := Longest(lengths, groups[s], |groups[s]|);
    assert GivesUpRow(lengths, groups, SplitOnce(lengths, groups, s), s, i);
  }

  /** Splitting is a chain of steps, each of which takes the longest row off the group with most tokens. */
  lemma {:induction false} SplitToIsChain(lengths: seq<nat>, groups: seq<seq<nat>>, target: nat)
    requires |groups| <= target
    ensures SplitsInto(lengths, groups, target, SplitTo(lengths, groups, target))
    decreases target - |groups|
  {
    var source := Widest(lengths, groups, |groups|);
    var end := SplitTo(lengths, groups, target);
    if |groups| >= target || source.None? {
      assert SplitChain(lengths, [groups]);
    } else {
      var split := SplitOnce(lengths, groups, source.value);
      SplitOnceIsStep(lengths, groups);
      SplitToIsChain(lengths, split, target);
      var plans :| SplitChain(lengths, plans) && plans[0] == split && plans[|plans| - 1] == end;
      PrependStep(lengths, groups, plans);
      var all := [groups] + plans;
      assert all[0] == groups && all[|all| - 1] == end;
    }
  }

  lemma PrependStep(lengths: seq<nat>, first: seq<seq<nat>>, plans: seq<seq<seq<nat>>>)
    requires SplitChain(lengths, plans) && SplitStep(lengths, first, plans[0])
    ensures SplitChain(lengths, [first] + plans)
  {
    var all := [first] + plans;
    forall k | 0 < k < |all|
      ensures SplitStep(lengths, all[k - 1], all[k])
    {
      assert all[k] == plans[k - 1] && (k > 1 ==> all[k - 1] == plans[k - 2]);
    }
  }

  /** Every group of `to` is part of a group of `from`. */
  ghost predicate Refines(from: seq<seq<nat>>, to: seq<seq<nat>>) {
    forall t :: 0 <= t < |to| ==> Within(from, to[t])
  }

  ghost predicate Within(from: seq<seq<nat>>, group: seq<nat>) {
    exists f :: 0 <= f < |from| && multiset(group) <= multiset(from[f])
  }

  lemma RefinesTransitive(a: seq<seq<nat>>, b: seq<seq<nat>>, c: seq<seq<nat>>)
    requires Refines(a, b) && Refines(b, c)
    ensures Refines(a, c)
  {
    forall t | 0 <= t < |c| ensures Within(a, c[t]) {
      var f :| 0 <= f < |b| && multiset(c[t]) <= multiset(b[f]);
      assert Within(a, b[f]);
      var e :| 0 <= e < |a| && multiset(b[f]) <= multiset(a[e]);
    }
  }

  lemma SplitOnceContent(lengths: seq<nat>, groups: seq<seq<nat>>, source: nat, i: nat)
    requires source < |groups| && i < |groups[source]|
    ensures
      var group := groups[source];
      multiset(Flatten(groups[source := group[..i] + group[i + 1..]] + [[group[i]]])) == multiset(Flatten(groups))
  {
    var group := groups[source];
    var rest, x := group[..i] + group[i + 1..], group[i];
    assert group == group[..i] + ([x] + group[i + 1..]);
    TakeOut(group[..i], [x], group[i + 1..]);
    FlattenUpdate(groups, source, rest);
    FlattenOpenOne(groups[source := rest], x);
    var kept, all := multiset(Flatten(groups[source := rest])), multiset(Flatten(groups));
    assert kept + (multiset(rest) + multiset{x}) == (kept + multiset{x}) + multiset(rest);
    Cancel(kept + multiset{x}, all, multiset(rest));
  }

  lemma PartsOfGroup(group: seq<nat>, i: nat)
    requires i < |group|
    ensures multiset(group[..i] + group[i + 1..]) <= multiset(group) && multiset([group[i]]) <= multiset(group)
  {
    assert group == group[..i] + ([group[i]] + group[i + 1..]);
    TakeOut(group[..i], [group[i]], group[i + 1..]);
  }

  lemma SplitOnceKeeps(lengths: seq<nat>, groups: seq<seq<nat>>, source: nat)
    requires source < |groups| && |groups[source]| > 1 && NonEmpty(groups)
    ensures
      var split := SplitOnce(lengths, groups, source);
      && |split| == |groups| + 1 && NonEmpty(split) && Refines(groups, split)
      && multiset(Flatten(split)) == multiset(Flatten(groups))
  {
    var i := Longest(lengths, groups[source], |groups[source]|);
    var split := SplitOnce(lengths, groups, source);
    SplitOnceContent(lengths, groups, source, i);
    SplitOnceRefines(groups, source, i);
  }

  lemma SplitOnceRefines(groups: seq<seq<nat>>, source: nat, i: nat)
    requires source < |groups| && i < |groups[source]|
    ensures
      var group := groups[source];
      Refines(groups, groups[source := group[..i] + group[i + 1..]] + [[group[i]]])
  {
    var group := groups[source];
    var split := groups[source := group[..i] + group[i + 1..]] + [[group[i]]];
    PartsOfGroup(group, i);
    forall t | 0 <= t < |split| ensures Within(groups, split[t]) {
      var f := if t == |groups| then source else t;
      assert multiset(split[t]) <= multiset(groups[f]);
    }
  }

  lemma {:induction false} GroupsAtMostRows(groups: seq<seq<nat>>)
    requires NonEmpty(groups)
    ensures |groups| <= |Flatten(groups)|
    ensures (forall g :: 0 <= g < |groups| ==> |groups[g]| <= 1) ==> |groups| == |Flatten(groups)|
    decreases |groups|
  {
    if groups != [] {
      GroupsAtMostRows(groups[..|groups| - 1]);
    }
  }

  /** Splitting ends with exactly min(target, rows) groups, each part of a group it started from. */
  lemma {:induction false} SplitToRefines(lengths: seq<nat>, groups: seq<seq<nat>>, target: nat)
    requires NonEmpty(groups) && |groups| <= target
    ensures
      var split := SplitTo(lengths, groups, target);
      && NonEmpty(split) && Refines(groups, split)
      && multiset(Flatten(split)) == multiset(Flatten(groups))
      && |split| == if target <= |Flatten(groups)| then target else |Flatten(groups)|
    decreases target - |groups|
  {
    var source := Widest(lengths, groups, |groups|);
    GroupsAtMostRows(groups);
    if |groups| >= target || source.None? {
      forall t | 0 <= t < |groups| ensures Within(groups, groups[t]) {
        assert multiset(groups[t]) <= multiset(groups[t]);
      }
    } else {
      var split := SplitOnce(lengths, groups, source.value);
      SplitOnceKeeps(lengths, groups, source.value);
      assert |multiset(Flatten(split))| == |multiset(Flatten(groups))|;
      SplitToRefines(lengths, split, target);
      RefinesTransitive(groups, split, SplitTo(lengths, split, target));
    }
  }

  /** A refined plan keeps the budget. */
  lemma RefinedWithinBudget(lengths: seq<nat>, budget: nat, from: seq<seq<nat>>, to: seq<seq<nat>>)
    requires Refines(from, to) && NonEmpty(to) && AllWithinBudget(lengths, budget, from)
    ensures AllWithinBudget(lengths, budget, to)
  {
    forall t | 0 <= t < |to| ensures WithinBudget(lengths, budget, to[t]) {
      assert Within(from, to[t]);
      var f :| 0 <= f < |from| && multiset(to[t]) <= multiset(from[f]);
      LoadSubset(lengths, to[t], from[f]);
      assert multiset(from[f]) == multiset(to[t]) + (multiset(from[f]) - multiset(to[t]));
      assert |multiset(to[t])| <= |multiset(from[f])|;
      assert WithinBudget(lengths, budget, from[f]);
    }
  }

  lemma SortedRefines(from: seq<seq<nat>>, to: seq<seq<nat>>)
    requires Refines(from, to)
    ensures Refines(from, SortGroups(to))
  {
    SortGroupsContent(to);
    var sorted := SortGroups(to);
    forall t | 0 <= t < |sorted| ensures Within(from, sorted[t]) {
      var f :| 0 <= f < |to| && multiset(to[f]) == multiset(sorted[t]);
      assert Within(from, to[f]);
    }
  }

  method SplitGroupsToCount(groups: seq<seq<nat>>, lengths: seq<nat>, target: int)
    returns (r: Result<seq<seq<nat>>, PlanError>)
    requires forall g, i :: 0 <= g < |groups| && 0 <= i < |groups[g]| ==> groups[g][i] < |lengths|
    ensures target < |groups| ==> r == Err(CannotReduce)
    ensures target >= |groups| ==>
              r.Ok? && SortedPlan(r.value)
              && exists end :: SplitsInto(lengths, groups, target, end) && r.value == SortGroups(end)
    ensures r.Ok? && NonEmpty(groups) ==>
              && NonEmpty(r.value) && Refines(groups, r.value)
              && multiset(Flatten(r.value)) == multiset(Flatten(groups))
              && |r.value| == if target <= |Flatten(groups)| then target else |Flatten(groups)|
  {
    if target < |groups| {
      return Err(CannotReduce);
    }
    var result := groups;
    while |result| < target
      invariant |result| <= target
      invariant SplitTo(lengths, result, target) == SplitTo(lengths, groups, target)
      invariant forall g, i :: 0 <= g < |result| && 0 <= i < |result[g]| ==> result[g][i] < |lengths|
      decreases target - |result|
    {
      var source := WidestGroup(lengths, result);
      if source.None? {
        break;
      }
      var group := result[source.value];
      var i := LongestRow(lengths, group);
      result := result[source.value := group[..i] + group[i + 1..]] + [[group[i]]];
    }
    if NonEmpty(groups) {
      SplitToRefines(lengths, groups, target);
      SortGroupsContent(SplitTo(lengths, groups, target));
      SortedRefines(groups, SplitTo(lengths, groups, target));
    }
    SplitToIsChain(lengths, groups, target);
    SortGroupsSorted(result);
    return Ok(SortGroups(result));
  }

  method WidestGroup(lengths: seq<nat>, groups: seq<seq<nat>>) returns (best: Option<nat>)
    ensures best == Widest(lengths, groups, |groups|)
  {
    best := None;
    for g := 0 to |groups|
      invariant best == Widest(lengths, groups, g)
    {
      if |groups[g]| > 1 && (best.None? || Load(lengths, groups[g]) > Load(lengths, groups[best.value])) {
        best := Some(g);
      }
    }
  }

  method LongestRow(lengths: seq<nat>, group: seq<nat>) returns (best: nat)
    requires group != [] && forall i :: 0 <= i < |group| ==> group[i] < |lengths|
    ensures best < |group| && best == Longest(lengths, group, |group|)
  {
    best := 0;
    for i := 1 to |group|
      invariant best < |group| && best == Longest(lengths, group, i)
    {
      if lengths[group[i]] > lengths[group[best]] {
        best := i;
      }
    }
  }

  /** Budget groups, raised to a request-wide count. The partition error cannot be reached. */
  method MicrobatchGroups(lengths: seq<nat>, budget: int, minGroups: int) returns (r: Result<seq<seq<nat>>, PlanError>)
    ensures lengths == [] ==> r == Ok([])
    ensures lengths != [] && budget <= 0 ==> r == Err(BadBudget)
    ensures lengths != [] && budget > 0 ==>
              && r.Ok? && Perm(Flatten(r.value), |lengths|) && NonEmpty(r.value) && AscendingPlan(r.value)
              && AllWithinBudget(lengths, budget, r.value)
              && |HeaviestOrder(lengths)| == |lengths|
              && var plan := BudgetPlan(lengths, budget);
                 if minGroups <= |plan| then r.value == plan
                 else
                   && |r.value| == Least(minGroups, |lengths|) && Refines(plan, r.value)
                   && exists end :: SplitsInto(lengths, plan, minGroups, end) && r.value == SortGroups(end)
  {
    var n := |lengths|;
    if n == 0 {
      return Ok([]);
    }
    var plan := TokenBudgetGroups(lengths, budget);
    if plan.Err? {
      return plan;
    }
    var groups := plan.value;
    if minGroups > |groups| {
      RowsBelow(groups, n);
      var split := SplitGroupsToCount(groups, lengths, minGroups);
      RefinedWithinBudget(lengths, budget, groups, split.value);
      PermMember(Flatten(groups), n);
      SplitAscends(groups, split.value, n);
      groups := split.value;
    }
    if !Perm(Flatten(groups), n) {
      return Err(NotAPartition);
    }
    return Ok(groups);
  }

  lemma SplitAscends(groups: seq<seq<nat>>, split: seq<seq<nat>>, n: nat)
    requires Perm(Flatten(groups), n) && multiset(Flatten(split)) == multiset(Flatten(groups))
    requires exists end :: split == SortGroups(end)
    ensures AscendingPlan(split)
  {
    var end :| split == SortGroups(end);
    SortGroupsContent(end);
    SortGroupsAscend(end, n);
  }

  lemma RowsBelow(groups: seq<seq<nat>>, n: nat)
    requires Perm(Flatten(groups), n)
    ensures forall g, i :: 0 <= g < |groups| && 0 <= i < |groups[g]| ==> groups[g][i] < n
  {
    PermMember(Flatten(groups), n);
    forall g, i | 0 <= g < |groups| && 0 <= i < |groups[g]|
      ensures groups[g][i] < n
    {
      FlattenMember(groups, groups[g][i]);
    }
  }

  // ---------------------------------------------------------------- applying a plan and undoing it

  datatype Microbatches<T> = Microbatches(batches: seq<seq<T>>, restoreOrder: Option<seq<nat>>)

  /** Put per-row results, concatenated in execution order, back into row order. */
  function Restore<T>(outputs: seq<T>, restoreOrder: Option<seq<nat>>): seq<T>
    requires restoreOrder.Some? ==> forall i :: 0 <= i < |restoreOrder.value| ==> restoreOrder.value[i] < |outputs|
  {
    if restoreOrder.None? then outputs
    else seq(|restoreOrder.value|, i requires 0 <= i < |restoreOrder.value| => outputs[restoreOrder.value[i]])
  }

  function SelectRows<T>(rows: seq<T>, index: seq<nat>): (picked: seq<T>)
    requires forall i :: 0 <= i < |index| ==> index[i] < |rows|
    ensures |picked| == |index| && forall i :: 0 <= i < |index| ==> picked[i] == rows[index[i]]
  {
    seq(|index|, i requires 0 <= i < |index| => rows[index[i]])
  }

  ghost predicate InvertsPlan(restoreOrder: Option<seq<nat>>, forward: seq<nat>) {
    match restoreOrder
    case None => forward == Range(|forward|)
    case Some(restore) =>
      && |restore| == |forward|
      && (forall i :: 0 <= i < |restore| ==> restore[i] < |forward| && forward[restore[i]] == i)
      && (forall p :: 0 <= p < |forward| ==> forward[p] < |restore| && restore[forward[p]] == p)
  }

  method SplitMicrobatches<T>(rows: seq<T>, groups: seq<seq<nat>>) returns (r: Result<Microbatches<T>, PlanError>)
    ensures !Perm(Flatten(groups), |rows|) <==> r == Err(NotAPartition)
    ensures Perm(Flatten(groups), |rows|) ==>
              && r.Ok? && InvertsPlan(r.value.restoreOrder, Flatten(groups))
              && |Flatten(groups)| == |Flatten(r.value.batches)| == |rows|
              && |r.value.batches| == |groups|
              && (forall g :: 0 <= g < |groups| ==> |r.value.batches[g]| == |groups[g]|)
              && Restore(Flatten(r.value.batches), r.value.restoreOrder) == rows
  {
    var forward := Flatten(groups);
    var n := |rows|;
    if !Perm(forward, n) {
      return Err(NotAPartition);
    }
    PermMember(forward, n);
    RowsBelow(groups, n);
    BelowAll(forward, n);
    var batches: seq<seq<T>> := [];
    for g := 0 to |groups|
      invariant |batches| == g
      invariant forall h :: 0 <= h < g ==> |batches[h]| == |groups[h]|
      invariant Flatten(groups[..g]) <= forward
      invariant Flatten(batches) == SelectRows(rows, Flatten(groups[..g]))
    {
      FlattenPrefix(groups, g);
      var batch := SelectRows(rows, groups[g]);
      assert (batches + [batch])[..|batches|] == batches;
      batches := batches + [batch];
      assert Flatten(batches) == SelectRows(rows, Flatten(groups[..g + 1]));
    }
    assert groups[..|groups|] == groups;
    var restoreOrder: Option<seq<nat>> := None;
    if forward != Range(n) {
      var restore := InverseOrder(forward, n);
      restoreOrder := Some(restore);
    }
    assert Restore(Flatten(batches), restoreOrder) == rows;
    return Ok(Microbatches(batches, restoreOrder));
  }

  lemma BelowAll(forward: seq<nat>, n: nat)
    requires Perm(forward, n)
    ensures forall p :: 0 <= p < |forward| ==> forward[p] < n
  {
    PermMember(forward, n);
    forall p | 0 <= p < |forward| ensures forward[p] < n {
      assert forward[p] in forward;
    }
  }

  lemma FlattenPrefix(groups: seq<seq<nat>>, g: nat)
    requires g < |groups|
    ensures Flatten(groups[..g + 1]) == Flatten(groups[..g]) + groups[g]
    ensures Flatten(groups[..g + 1]) <= Flatten(groups)
  {
    assert groups[..g + 1][..g] == groups[..g];
    FlattenAppend(groups[..g + 1], groups[g + 1..]);
    assert groups == groups[..g + 1] + groups[g + 1..];
  }

  method InverseOrder(forward: seq<nat>, n: nat) returns (restore: seq<nat>)
    requires Perm(forward, n)
    ensures |forward| == n && InvertsPlan(Some(restore), forward)
  {
    PermMember(forward, n);
    restore := seq(n, _ => 0);
    for position := 0 to n
      invariant |restore| == n && forall i :: 0 <= i < n ==> restore[i] < n || restore[i] == 0
      invariant forall p :: 0 <= p < position ==> 0 <= forward[p] < n && restore[forward[p]] == p
    {
      assert forward[position] in forward;
      restore := restore[forward[position] := position];
    }
    forall i | 0 <= i < n
      ensures restore[i] < n && forward[restore[i]] == i
    {
      assert i in forward;
      var p :| 0 <= p < n && forward[p] == i;
    }
  }
}
