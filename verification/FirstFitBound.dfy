/** How far first-fit-decreasing can be from the fewest possible groups
    (arctic_platform/common/packing/groups.py, token_budget_groups). Unlike the bounds that hold for any
    first-fit plan, this one needs the rows to be placed longest first. */
module FirstFitBound {
  import opened Basics
  import opened TokenGroups

  // ---------------------------------------------------------------- what placing longest first keeps

  ghost predicate DoesNotFit(lengths: seq<nat>, budget: nat, groups: seq<seq<nat>>, g: nat, h: nat, k: nat) {
    g < h < |groups| && k < |groups[h]| ==> Load(lengths, groups[g]) + At(lengths, groups[h][k]) > budget
  }

  /** No row of a later group fits into an earlier one. */
  ghost predicate LaterRowsDoNotFit(lengths: seq<nat>, budget: nat, groups: seq<seq<nat>>) {
    forall g: nat, h: nat, k: nat :: DoesNotFit(lengths, budget, groups, g, h, k)
  }

  ghost predicate Leads(lengths: seq<nat>, groups: seq<seq<nat>>, g: nat, h: nat, k: nat) {
    g <= h < |groups| && groups[g] != [] && k < |groups[h]| ==> At(lengths, groups[g][0]) >= At(lengths, groups[h][k])
  }

  /** A group's first row is at least as long as every row of it and of the later groups. */
  ghost predicate FirstRowsLead(lengths: seq<nat>, groups: seq<seq<nat>>) {
    forall g: nat, h: nat, k: nat :: Leads(lengths, groups, g, h, k)
  }

  lemma PlaceKeepsNoFit(lengths: seq<nat>, budget: nat, groups: seq<seq<nat>>, row: nat)
    requires LaterRowsDoNotFit(lengths, budget, groups)
    ensures LaterRowsDoNotFit(lengths, budget, PlaceRow(lengths, budget, groups, row))
  {
    var fit, placed := FirstFit(lengths, budget, groups, row, 0), PlaceRow(lengths, budget, groups, row);
    FirstFitIsFirst(lengths, budget, groups, row, 0);
    if fit < |groups| {
      LoadGrows(lengths, groups[fit], row);
    }
    forall g: nat, h: nat, k: nat
      ensures DoesNotFit(lengths, budget, placed, g, h, k)
    {
      assert DoesNotFit(lengths, budget, groups, g, h, k);
    }
  }

  lemma PlaceKeepsLead(lengths: seq<nat>, budget: nat, groups: seq<seq<nat>>, row: nat)
    requires NonEmpty(groups) && FirstRowsLead(lengths, groups) && AllAtLeast(lengths, groups, At(lengths, row))
    ensures FirstRowsLead(lengths, PlaceRow(lengths, budget, groups, row))
  {
    var placed := PlaceRow(lengths, budget, groups, row);
    forall g: nat, h: nat, k: nat
      ensures Leads(lengths, placed, g, h, k)
    {
      assert Leads(lengths, groups, g, h, k);
    }
  }

  lemma {:induction false} PlanLeads(lengths: seq<nat>, budget: nat, order: seq<nat>, k: nat)
    requires Descending(lengths, order) && k <= |order|
    ensures LaterRowsDoNotFit(lengths, budget, Plan(lengths, budget, order, k))
    ensures FirstRowsLead(lengths, Plan(lengths, budget, order, k))
    decreases k
  {
    if k > 0 {
      var groups := Plan(lengths, budget, order, k - 1);
      PlanLeads(lengths, budget, order, k - 1);
      PlanIsSound(lengths, budget, order, k - 1);
      PlanContent(lengths, budget, order, k - 1);
      PlacedAreHeavier(lengths, order, groups, k - 1);
      PlaceKeepsNoFit(lengths, budget, groups, order[k - 1]);
      PlaceKeepsLead(lengths, budget, groups, order[k - 1]);
    }
  }

  // ---------------------------------------------------------------- rows longer than half the budget

  /** 1 for each row longer than half the budget. */
  ghost function Big(lengths: seq<nat>, budget: nat): (big: seq<nat>)
    ensures |big| == |lengths| && forall i :: 0 <= i < |big| ==> big[i] == if 2 * lengths[i] > budget then 1 else 0
  {
    seq(|lengths|, i requires 0 <= i < |lengths| => if 2 * lengths[i] > budget then 1 else 0)
  }

  lemma {:induction false} BigRowsWeigh(lengths: seq<nat>, budget: nat, rows: seq<nat>)
    ensures Load(Big(lengths, budget), rows) * (budget + 1) <= 2 * Load(lengths, rows)
    decreases |rows|
  {
    if rows != [] {
      var k := |rows| - 1;
      BigRowsWeigh(lengths, budget, rows[..k]);
      MulSucc(Load(Big(lengths, budget), rows[..k]), budget + 1);
    }
  }

  /** Two such rows do not share a group within budget. */
  lemma OneBigRow(lengths: seq<nat>, budget: nat, rows: seq<nat>)
    requires Load(lengths, rows) <= budget
    ensures Load(Big(lengths, budget), rows) <= 1
  {
    BigRowsWeigh(lengths, budget, rows);
    LoadNonNegative(Big(lengths, budget), rows);
    SmallerFactor(Load(Big(lengths, budget), rows), 2, budget + 1, 2 * (budget + 1));
  }

  lemma {:induction false} FirstRowsCount(weights: seq<nat>, groups: seq<seq<nat>>)
    requires forall g :: 0 <= g < |groups| ==> groups[g] != [] && At(weights, groups[g][0]) == 1
    ensures Load(weights, Flatten(groups)) >= |groups|
    decreases |groups|
  {
    if groups != [] {
      var k := |groups| - 1;
      FirstRowsCount(weights, groups[..k]);
      LoadAppend(weights, Flatten(groups[..k]), groups[k]);
      FirstRowLoad(weights, groups[k]);
    }
  }

  lemma PrefixLoad(weights: seq<nat>, groups: seq<seq<nat>>, j: nat)
    requires j <= |groups|
    ensures Load(weights, Flatten(groups)) == Load(weights, Flatten(groups[..j])) + Load(weights, Flatten(groups[j..]))
  {
    assert groups == groups[..j] + groups[j..];
    FlattenAppend(groups[..j], groups[j..]);
    LoadAppend(weights, Flatten(groups[..j]), Flatten(groups[j..]));
  }

  /** Two plans of the same rows. */
  ghost predicate SameRows(groups: seq<seq<nat>>, other: seq<seq<nat>>) {
    multiset(Flatten(groups)) == multiset(Flatten(other))
  }

  ghost predicate KeepsBudget(lengths: seq<nat>, budget: nat, groups: seq<seq<nat>>) {
    forall g :: 0 <= g < |groups| ==> Load(lengths, groups[g]) <= budget
  }

  /** If the first rows of `j` groups count and no group of another plan has two that do, it has `j` groups. */
  lemma CountedRowsNeedGroups(weights: seq<nat>, groups: seq<seq<nat>>, other: seq<seq<nat>>, j: nat)
    requires SameRows(groups, other) && KeepsBudget(weights, 1, other) && j <= |groups|
    requires forall g :: 0 <= g < j ==> groups[g] != [] && At(weights, groups[g][0]) == 1
    ensures j <= |other|
  {
    FirstRowsCount(weights, groups[..j]);
    PrefixLoad(weights, groups, j);
    LoadNonNegative(weights, Flatten(groups[j..]));
    LoadPermutation(weights, Flatten(groups), Flatten(other));
    GroupsWithinBudgetBound(weights, 1, other);
  }

  /** If the first `j` groups each start with a row over half the budget, every plan needs `j` groups. */
  lemma BigFirstRowsNeedGroups(lengths: seq<nat>, budget: nat, groups: seq<seq<nat>>, other: seq<seq<nat>>, j: nat)
    requires SameRows(groups, other) && KeepsBudget(lengths, budget, other) && j <= |groups|
    requires forall g :: 0 <= g < j ==> groups[g] != [] && 2 * At(lengths, groups[g][0]) > budget
    ensures j <= |other|
  {
    forall g | 0 <= g < |other| ensures Load(Big(lengths, budget), other[g]) <= 1 {
      OneBigRow(lengths, budget, other[g]);
    }
    CountedRowsNeedGroups(Big(lengths, budget), groups, other, j);
  }

  // ---------------------------------------------------------------- only short rows from some group on

  lemma {:induction false} TwoRowsEach(groups: seq<seq<nat>>)
    requires forall g :: 0 <= g < |groups| ==> |groups[g]| >= 2
    ensures |Flatten(groups)| >= 2 * |groups|
    decreases |groups|
  {
    if groups != [] {
      TwoRowsEach(groups[..|groups| - 1]);
    }
  }

  /** Groups of rows up to half the budget, other than the last group, hold two rows. */
  lemma ShortGroupsHoldTwo(lengths: seq<nat>, budget: nat, groups: seq<seq<nat>>, c: nat, g: nat)
    requires NonEmpty(groups) && LaterRowsDoNotFit(lengths, budget, groups) && FirstRowsLead(lengths, groups)
    requires c <= g < |groups| - 1 && 2 * At(lengths, groups[c][0]) <= budget
    ensures |groups[g]| >= 2
  {
    var last := |groups| - 1;
    assert Leads(lengths, groups, c, g, 0) && Leads(lengths, groups, c, last, 0);
    assert DoesNotFit(lengths, budget, groups, g, last, 0);
    if |groups[g]| == 1 {
      assert groups[g] == [groups[g][0]];
      LoadOne(lengths, groups[g][0]);
    }
  }

  lemma TailHoldsManyRows(lengths: seq<nat>, budget: nat, groups: seq<seq<nat>>, c: nat)
    requires NonEmpty(groups) && LaterRowsDoNotFit(lengths, budget, groups) && FirstRowsLead(lengths, groups)
    requires c < |groups| && 2 * At(lengths, groups[c][0]) <= budget
    ensures |Flatten(groups[c..])| >= 2 * (|groups| - c) - 1
  {
    var tail := groups[c..];
    var m := |tail| - 1;
    var init: seq<seq<nat>> := tail[..m];
    forall g | 0 <= g < m ensures |init[g]| >= 2 {
      ShortGroupsHoldTwo(lengths, budget, groups, c, c + g);
    }
    TwoRowsEach(init);
    assert tail[m] == groups[|groups| - 1] != [];
  }

  lemma TailRowDoesNotFit(lengths: seq<nat>, budget: nat, groups: seq<seq<nat>>, c: nat, g: nat, x: nat)
    requires LaterRowsDoNotFit(lengths, budget, groups) && g < c <= |groups| && x in Flatten(groups[c..])
    ensures Load(lengths, groups[g]) + At(lengths, x) > budget
  {
    FlattenMember(groups[c..], x);
    var h :| 0 <= h < |groups[c..]| && x in groups[c..][h];
    var k :| 0 <= k < |groups[c + h]| && groups[c + h][k] == x;
    assert DoesNotFit(lengths, budget, groups, g, c + h, k);
  }

  /** Bins paired with rows that do not fit them weigh more than their budgets. */
  lemma {:induction false} PairedLoads(lengths: seq<nat>, budget: nat, bins: seq<seq<nat>>, rows: seq<nat>)
    requires |bins| == |rows|
    requires forall t :: 0 <= t < |bins| ==> Load(lengths, bins[t]) + At(lengths, rows[t]) > budget
    ensures Load(lengths, Flatten(bins)) + Load(lengths, rows) >= |bins| * (budget + 1)
    decreases |bins|
  {
    if bins != [] {
      var k := |bins| - 1;
      PairedLoads(lengths, budget, bins[..k], rows[..k]);
      LoadAppend(lengths, Flatten(bins[..k]), bins[k]);
      MulSucc(k, budget + 1);
    }
  }

  /** If the groups from `c` on hold at least `c` rows, the tokens exceed `c` budgets. */
  lemma TailOutweighs(lengths: seq<nat>, budget: nat, groups: seq<seq<nat>>, c: nat)
    requires LaterRowsDoNotFit(lengths, budget, groups)
    requires c <= |groups| && c <= |Flatten(groups[c..])|
    ensures Load(lengths, Flatten(groups)) >= c * (budget + 1)
  {
    var tail := Flatten(groups[c..]);
    forall t | 0 <= t < c
      ensures Load(lengths, groups[..c][t]) + At(lengths, tail[..c][t]) > budget
    {
      assert tail[t] in tail;
      TailRowDoesNotFit(lengths, budget, groups, c, t, tail[t]);
    }
    PairedLoads(lengths, budget, groups[..c], tail[..c]);
    assert tail == tail[..c] + tail[c..];
    LoadAppend(lengths, tail[..c], tail[c..]);
    LoadNonNegative(lengths, tail[c..]);
    PrefixLoad(lengths, groups, c);
  }

  lemma ShortTailNeedsGroups(lengths: seq<nat>, budget: nat, groups: seq<seq<nat>>, other: seq<seq<nat>>, c: nat)
    requires NonEmpty(groups) && LaterRowsDoNotFit(lengths, budget, groups) && FirstRowsLead(lengths, groups)
    requires SameRows(groups, other) && KeepsBudget(lengths, budget, other)
    requires c < |groups| && 3 * c <= 2 * |groups| - 1 && 2 * At(lengths, groups[c][0]) <= budget
    ensures c + 1 <= |other|
  {
    TailHoldsManyRows(lengths, budget, groups, c);
    TailOutweighs(lengths, budget, groups, c);
    OtherHasGroups(groups, other);
    LoadPermutation(lengths, Flatten(groups), Flatten(other));
    GroupsWithinBudgetBound(lengths, budget, other);
    if c > 0 {
      assert c * (budget + 1) == c * budget + c;
      SmallerFactor(c, |other|, budget, Load(lengths, Flatten(other)));
    }
  }

  lemma OtherHasGroups(groups: seq<seq<nat>>, other: seq<seq<nat>>)
    requires SameRows(groups, other) && NonEmpty(groups) && groups != []
    ensures other != []
  {
    assert groups[|groups| - 1] != [];
    assert |multiset(Flatten(groups))| == |multiset(Flatten(other))|;
  }

  // ---------------------------------------------------------------- the bound

  lemma TwoThirds(n: nat) returns (c: nat)
    requires n > 0
    ensures c < n && 3 * c <= 2 * n - 1 && 2 * n <= 3 * (c + 1)
  {
    c := (2 * n - 1) / 3;
  }

  lemma ThreeHalves(lengths: seq<nat>, budget: nat, groups: seq<seq<nat>>, other: seq<seq<nat>>)
    requires NonEmpty(groups) && LaterRowsDoNotFit(lengths, budget, groups) && FirstRowsLead(lengths, groups)
    requires SameRows(groups, other) && KeepsBudget(lengths, budget, other)
    ensures 2 * |groups| <= 3 * |other|
  {
    if groups != [] {
      var c := TwoThirds(|groups|);
      if 2 * At(lengths, groups[c][0]) > budget {
        forall g | 0 <= g <= c ensures groups[g] != [] && 2 * At(lengths, groups[g][0]) > budget {
          assert Leads(lengths, groups, g, c, 0);
        }
        BigFirstRowsNeedGroups(lengths, budget, groups, other, c + 1);
      } else {
        ShortTailNeedsGroups(lengths, budget, groups, other, c);
      }
    }
  }

  lemma DecreasingPlan(lengths: seq<nat>, budget: nat, order: seq<nat>)
    requires order == HeaviestOrder(lengths)
    ensures |order| == |lengths|
    ensures
      var groups := Plan(lengths, budget, order, |order|);
      && NonEmpty(groups) && LaterRowsDoNotFit(lengths, budget, groups) && FirstRowsLead(lengths, groups)
      && Perm(Flatten(groups), |lengths|)
  {
    HeaviestOrderSorts(lengths);
    PlanLeads(lengths, budget, order, |order|);
    PlanIsSound(lengths, budget, order, |order|);
    PlanContent(lengths, budget, order, |order|);
    assert order[..|order|] == order;
  }

  /** First-fit-decreasing uses at most one and a half times the groups of any plan that keeps the budget. */
  lemma WithinThreeHalvesOfOptimal(lengths: seq<nat>, budget: nat, other: seq<seq<nat>>)
    requires Perm(Flatten(other), |lengths|) && KeepsBudget(lengths, budget, other)
    ensures |HeaviestOrder(lengths)| == |lengths|
    ensures 2 * |BudgetPlan(lengths, budget)| <= 3 * |other|
  {
    DecreasingPlan(lengths, budget, HeaviestOrder(lengths));
    var groups := Plan(lengths, budget, HeaviestOrder(lengths), |lengths|);
    ThreeHalves(lengths, budget, groups, other);
    SortGroupsCount(groups);
  }
}
