/** The backtracking bin packer for whole prompt groups
    (arctic_platform/common/utils/balanced_batch.py, _pack_groups).

    `Explore` is the search written as plain recursion. The method `PackGroups` is the
    source's explicit-stack loop; it is proved to return what `Explore` returns and to stop
    on the node budget exactly when `Explore` needs more nodes than the budget. The lemmas
    then show that the recursion, pruning included, finds a packing iff there is one. */
module PackSearch {
  import opened Basics

  const PACK_NODE_BUDGET: nat := 100_000

  datatype Outcome =
    | Placed(rankOf: map<nat, nat>)
    | NoFit
    | BudgetExceeded(nodes: nat)

  datatype Group = Group(size: nat, cost: real)

  /** Result of a search: the rank of every remaining group in order, and the nodes spent. */
  datatype Search = Search(found: Option<seq<nat>>, nodes: nat)

  /** One stack frame: the position, the ranks worth trying there, the choice made, and the
      chosen rank's rows and cost before the choice. */
  datatype Frame = Frame(pos: nat, ranks: seq<nat>, choice: nat, savedRows: nat, savedCost: real)

  // ---------------------------------------------------------------- candidate ranks

  function CostAt(costs: seq<real>, r: nat): real {
    if r < |costs| then costs[r] else 0.0
  }

  /** Cheaper rank first, ties toward the lower rank. */
  function CheapestFirst(costs: seq<real>): (nat, nat) -> bool {
    (a: nat, b: nat) => CostAt(costs, a) < CostAt(costs, b) || (CostAt(costs, a) == CostAt(costs, b) && a <= b)
  }

  ghost predicate SameState(rows: seq<nat>, costs: seq<real>, a: nat, b: nat) {
    a < |rows| == |costs| && b < |rows| && rows[a] == rows[b] && costs[a] == costs[b]
  }

  ghost predicate InRange(ranks: seq<nat>, n: nat) {
    forall i :: 0 <= i < |ranks| ==> ranks[i] < n
  }

  /** Some listed rank has the (rows, cost) state of rank `r`. */
  ghost predicate Represented(found: seq<nat>, rows: seq<nat>, costs: seq<real>, r: nat) {
    exists i :: 0 <= i < |found| && SameState(rows, costs, found[i], r)
  }

  ghost predicate Roomy(found: seq<nat>, rows: seq<nat>, size: nat, cap: nat) {
    forall i :: 0 <= i < |found| ==> found[i] < |rows| && rows[found[i]] + size <= cap
  }

  lemma RepresentedNext(found: seq<nat>, rows: seq<nat>, costs: seq<real>, rank: nat, r: nat)
    ensures Represented(found + [rank], rows, costs, r) <==>
            Represented(found, rows, costs, r) || SameState(rows, costs, rank, r)
  {
    var grown := found + [rank];
    assert forall i :: 0 <= i < |found| ==> grown[i] == found[i];
    assert grown[|found|] == rank;
    if Represented(found, rows, costs, r) {
      var i :| 0 <= i < |found| && SameState(rows, costs, found[i], r);
      assert SameState(rows, costs, grown[i], r);
    }
  }

  /** The ranks of `order` that can take `size` rows, one per distinct (rows, cost) state. */
  ghost function Scan(order: seq<nat>, rows: seq<nat>, costs: seq<real>, size: nat, cap: nat): (found: seq<nat>)
    requires |rows| == |costs| && InRange(order, |rows|)
    ensures Roomy(found, rows, size, cap)
  {
    if order == [] then []
    else
      var r := order[|order| - 1];
      var prior := Scan(order[..|order| - 1], rows, costs, size, cap);
      if rows[r] + size > cap || Represented(prior, rows, costs, r) then prior else prior + [r]
  }

  lemma {:induction false} ScanRepresents(
      order: seq<nat>, rows: seq<nat>, costs: seq<real>, size: nat, cap: nat, k: nat)
    requires |rows| == |costs| && InRange(order, |rows|) && k < |order| && rows[order[k]] + size <= cap
    ensures Represented(Scan(order, rows, costs, size, cap), rows, costs, order[k])
    decreases |order|
  {
    var found := Scan(order, rows, costs, size, cap);
    var prior := Scan(order[..|order| - 1], rows, costs, size, cap);
    if k < |order| - 1 {
      ScanRepresents(order[..|order| - 1], rows, costs, size, cap, k);
      var i :| 0 <= i < |prior| && SameState(rows, costs, prior[i], order[k]);
      assert found[i] == prior[i];
    } else if found == prior + [order[k]] {
      assert SameState(rows, costs, found[|prior|], order[k]);
    }
  }

  function RankOrder(costs: seq<real>): seq<nat> {
    SortBy(CheapestFirst(costs), Range(|costs|))
  }

  lemma RankOrderIsPerm(costs: seq<real>)
    ensures Perm(RankOrder(costs), |costs|)
    ensures |RankOrder(costs)| == |costs| && InRange(RankOrder(costs), |costs|)
    ensures forall r: nat :: r < |costs| ==> r in RankOrder(costs)
    ensures SortedBy(CheapestFirst(costs), RankOrder(costs))
  {
    SortBySorts(CheapestFirst(costs), Range(|costs|));
    PermMember(RankOrder(costs), |costs|);
    forall i | 0 <= i < |RankOrder(costs)|
      ensures RankOrder(costs)[i] < |costs|
    {
      assert RankOrder(costs)[i] in RankOrder(costs);
    }
  }

  /** The candidate ranks of one position, cheapest first. */
  ghost function CandidateRanks(rows: seq<nat>, costs: seq<real>, size: nat, cap: nat): (found: seq<nat>)
    requires |rows| == |costs|
    ensures Roomy(found, rows, size, cap)
  {
    RankOrderIsPerm(costs);
    Scan(RankOrder(costs), rows, costs, size, cap)
  }

  lemma CandidatesRepresent(rows: seq<nat>, costs: seq<real>, size: nat, cap: nat, r: nat)
    requires |rows| == |costs| && r < |rows| && rows[r] + size <= cap
    ensures Represented(CandidateRanks(rows, costs, size, cap), rows, costs, r)
  {
    RankOrderIsPerm(costs);
    assert r in RankOrder(costs);
    var k :| 0 <= k < |RankOrder(costs)| && RankOrder(costs)[k] == r;
    ScanRepresents(RankOrder(costs), rows, costs, size, cap, k);
  }

  /** Rank `a` is tried before rank `b`: it is cheaper, or as cheap and lower. */
  ghost predicate TriedBefore(costs: seq<real>, a: nat, b: nat) {
    a < |costs| && b < |costs| && (costs[a] < costs[b] || (costs[a] == costs[b] && a < b))
  }

  ghost predicate AllTriedInOrder(costs: seq<real>, ranks: seq<nat>) {
    forall i, j :: 0 <= i < j < |ranks| ==> TriedBefore(costs, ranks[i], ranks[j])
  }

  ghost predicate StatesDiffer(ranks: seq<nat>, rows: seq<nat>, costs: seq<real>) {
    forall i, j :: 0 <= i < j < |ranks| ==> !SameState(rows, costs, ranks[i], ranks[j])
  }

  /** Some listed rank in the state of `r` is `r` or a lower rank. */
  ghost predicate ListedFor(found: seq<nat>, rows: seq<nat>, costs: seq<real>, r: nat) {
    exists i :: 0 <= i < |found| && SameState(rows, costs, found[i], r) && found[i] <= r
  }

  /** What the candidates of a position are: ranks with room, cheapest first and lower first among equals, the
      lowest rank of every (rows, cost) state that has room, and no state twice. */
  ghost predicate ListsCandidates(found: seq<nat>, rows: seq<nat>, costs: seq<real>, size: nat, cap: nat)
    requires |rows| == |costs|
  {
    && Roomy(found, rows, size, cap) && AllTriedInOrder(costs, found) && StatesDiffer(found, rows, costs)
    && forall r: nat :: r < |rows| && rows[r] + size <= cap ==> ListedFor(found, rows, costs, r)
  }

  lemma RanksAscend(costs: seq<real>)
    ensures AllTriedInOrder(costs, RankOrder(costs))
  {
    var order := RankOrder(costs);
    RankOrderIsPerm(costs);
    PermMember(order, |costs|);
    forall i, j | 0 <= i < j < |order|
      ensures TriedBefore(costs, order[i], order[j])
    {
      assert CheapestFirst(costs)(order[i], order[j]);
    }
  }

  lemma {:induction false} ScanSubset(order: seq<nat>, rows: seq<nat>, costs: seq<real>, size: nat, cap: nat)
    requires |rows| == |costs| && InRange(order, |rows|)
    ensures forall i :: 0 <= i < |Scan(order, rows, costs, size, cap)| ==>
            Scan(order, rows, costs, size, cap)[i] in order
    decreases |order|
  {
    if order != [] {
      ScanSubset(order[..|order| - 1], rows, costs, size, cap);
    }
  }

  lemma {:induction false} ScanKeepsOrder(order: seq<nat>, rows: seq<nat>, costs: seq<real>, size: nat, cap: nat)
    requires |rows| == |costs| && InRange(order, |rows|) && AllTriedInOrder(costs, order)
    ensures AllTriedInOrder(costs, Scan(order, rows, costs, size, cap))
    ensures StatesDiffer(Scan(order, rows, costs, size, cap), rows, costs)
    decreases |order|
  {
    if order != [] {
      var k := |order| - 1;
      var prior := Scan(order[..k], rows, costs, size, cap);
      ScanKeepsOrder(order[..k], rows, costs, size, cap);
      ScanSubset(order[..k], rows, costs, size, cap);
      forall i | 0 <= i < |prior|
        ensures TriedBefore(costs, prior[i], order[k])
      {
        var j :| 0 <= j < k && order[..k][j] == prior[i];
        assert order[j] == prior[i];
      }
      AppendInOrder(costs, prior, order[k]);
      AppendDiffers(rows, costs, prior, order[k]);
    }
  }

  lemma AppendInOrder(costs: seq<real>, ranks: seq<nat>, r: nat)
    requires AllTriedInOrder(costs, ranks) && forall i :: 0 <= i < |ranks| ==> TriedBefore(costs, ranks[i], r)
    ensures AllTriedInOrder(costs, ranks + [r])
  {
  }

  lemma AppendDiffers(rows: seq<nat>, costs: seq<real>, ranks: seq<nat>, r: nat)
    requires StatesDiffer(ranks, rows, costs)
    ensures !Represented(ranks, rows, costs, r) ==> StatesDiffer(ranks + [r], rows, costs)
  {
    if !Represented(ranks, rows, costs, r) {
      var grown := ranks + [r];
      forall i, j | 0 <= i < j < |grown| ensures !SameState(rows, costs, grown[i], grown[j]) {
        if j == |ranks| {
          assert !SameState(rows, costs, ranks[i], r);
        }
      }
    }
  }

  /** The representative of a state is its lowest rank, because equal ranks are scanned in index order. */
  lemma RepresentedByLower(found: seq<nat>, rows: seq<nat>, costs: seq<real>, size: nat, cap: nat, r: nat)
    requires |rows| == |costs| && found == CandidateRanks(rows, costs, size, cap)
    requires r < |rows| && rows[r] + size <= cap
    ensures ListedFor(found, rows, costs, r)
  {
    RankOrderIsPerm(costs);
    RanksAscend(costs);
    var order := RankOrder(costs);
    assert r in order;
    var k :| 0 <= k < |order| && order[k] == r;
    ScanListsEarlier(order, rows, costs, size, cap, k);
  }

  lemma {:induction false} ScanListsEarlier(
      order: seq<nat>, rows: seq<nat>, costs: seq<real>, size: nat, cap: nat, k: nat)
    requires |rows| == |costs| && InRange(order, |rows|) && AllTriedInOrder(costs, order)
    requires k < |order| && rows[order[k]] + size <= cap
    ensures ListedFor(Scan(order, rows, costs, size, cap), rows, costs, order[k])
    decreases |order|
  {
    var n := |order| - 1;
    var found, prior := Scan(order, rows, costs, size, cap), Scan(order[..n], rows, costs, size, cap);
    if k < n {
      ScanListsEarlier(order[..n], rows, costs, size, cap, k);
      var i :| 0 <= i < |prior| && SameState(rows, costs, prior[i], order[k]) && prior[i] <= order[k];
      assert found[i] == prior[i];
    } else if Represented(prior, rows, costs, order[k]) {
      var i :| 0 <= i < |prior| && SameState(rows, costs, prior[i], order[k]);
      ScanSubset(order[..n], rows, costs, size, cap);
      assert prior[i] in order[..n];
      assert TriedBefore(costs, prior[i], order[k]);
    } else {
      assert found[|prior|] == order[k];
    }
  }

  lemma CandidatesAreListed(rows: seq<nat>, costs: seq<real>, size: nat, cap: nat)
    requires |rows| == |costs|
    ensures ListsCandidates(CandidateRanks(rows, costs, size, cap), rows, costs, size, cap)
  {
    RankOrderIsPerm(costs);
    RanksAscend(costs);
    ScanKeepsOrder(RankOrder(costs), rows, costs, size, cap);
    forall r: nat | r < |rows| && rows[r] + size <= cap
      ensures ListedFor(CandidateRanks(rows, costs, size, cap), rows, costs, r)
    {
      RepresentedByLower(CandidateRanks(rows, costs, size, cap), rows, costs, size, cap, r);
    }
  }

  /** The inner function `candidates`: a scan of the ranks with a set of states tried. */
  method Candidates(rows: seq<nat>, costs: seq<real>, size: nat, cap: nat) returns (found: seq<nat>)
    requires |rows| == |costs|
    ensures found == CandidateRanks(rows, costs, size, cap)
    ensures ListsCandidates(found, rows, costs, size, cap)
  {
    CandidatesAreListed(rows, costs, size, cap);
    found := ScanRanks(rows, costs, size, cap);
  }

  method ScanRanks(rows: seq<nat>, costs: seq<real>, size: nat, cap: nat) returns (found: seq<nat>)
    requires |rows| == |costs|
    ensures found == CandidateRanks(rows, costs, size, cap)
  {
    var order := RankOrder(costs);
    RankOrderIsPerm(costs);
    var tried: set<(nat, real)> := {};
    found := [];
    for i := 0 to |order|
      invariant found == Scan(order[..i], rows, costs, size, cap)
      invariant forall r: nat :: r < |rows| ==> ((rows[r], costs[r]) in tried <==> Represented(found, rows, costs, r))
    {
      var rank := order[i];
      var state := (rows[rank], costs[rank]);
      assert order[..i + 1][..i] == order[..i];
      if rows[rank] + size > cap || state in tried {
        continue;
      }
      forall r: nat | r < |rows|
        ensures (rows[r], costs[r]) in tried + {state} <==> Represented(found + [rank], rows, costs, r)
      {
        RepresentedNext(found, rows, costs, rank, r);
      }
      tried := tried + {state};
      found := found + [rank];
    }
    assert order[..|order|] == order;
  }

  // ---------------------------------------------------------------- the recursive search

  function PlaceRows(rows: seq<nat>, r: nat, g: Group): seq<nat>
    requires r < |rows|
  {
    rows[r := rows[r] + g.size]
  }

  function PlaceCost(costs: seq<real>, r: nat, g: Group): seq<real>
    requires r < |costs|
  {
    costs[r := costs[r] + g.cost]
  }

  /** Depth-first search for ranks of the groups in `todo`. */
  ghost function Explore(todo: seq<Group>, rows: seq<nat>, costs: seq<real>, cap: nat): Search
    requires |rows| == |costs|
    decreases |todo|, 1, 0
  {
    if todo == [] then Search(Some([]), 0)
    else
      var tried := Try(todo, rows, costs, cap, CandidateRanks(rows, costs, todo[0].size, cap), 0);
      Search(tried.found, tried.nodes + 1)
  }

  /** The part of a position's search that starts at its choice number `choice`. A choice after
      the first counts as one more node. */
  ghost function Try(todo: seq<Group>, rows: seq<nat>, costs: seq<real>, cap: nat, ranks: seq<nat>, choice: nat): Search
    requires todo != [] && |rows| == |costs| && InRange(ranks, |rows|) && choice <= |ranks|
    decreases |todo|, 0, |ranks| - choice
  {
    if choice == |ranks| then Search(None, 0)
    else
      var r := ranks[choice];
      var below := Explore(todo[1..], PlaceRows(rows, r, todo[0]), PlaceCost(costs, r, todo[0]), cap);
      var spent := below.nodes + (if choice > 0 then 1 else 0);
      if below.found.Some? then Search(Some([r] + below.found.value), spent)
      else
        var later := Try(todo, rows, costs, cap, ranks, choice + 1);
        Search(later.found, spent + later.nodes)
  }

  // ---------------------------------------------------------------- the stack as a continuation

  ghost predicate ValidStack(stack: seq<Frame>, rankCount: nat, groupCount: nat) {
    && |stack| <= groupCount
    && forall k :: 0 <= k < |stack| ==>
         && stack[k].pos == k
         && InRange(stack[k].ranks, rankCount)
         && stack[k].choice < |stack[k].ranks|
  }

  ghost function Chosen(stack: seq<Frame>): (ranks: seq<nat>)
    requires forall k :: 0 <= k < |stack| ==> stack[k].choice < |stack[k].ranks|
    ensures |ranks| == |stack|
  {
    seq(|stack|, k requires 0 <= k < |stack| => stack[k].ranks[stack[k].choice])
  }

  /** What is left to search once everything below the top of the stack has failed: undo the
      top frame, try its later choices, then go on with the rest of the stack. */
  ghost function Backtrack(groups: seq<Group>, rows: seq<nat>, costs: seq<real>, cap: nat, stack: seq<Frame>): Search
    requires |rows| == |costs| && ValidStack(stack, |rows|, |groups|)
    decreases |stack|
  {
    if stack == [] then Search(None, 0)
    else
      var top := stack[|stack| - 1];
      var rank := top.ranks[top.choice];
      var rows' := rows[rank := top.savedRows];
      var costs' := costs[rank := top.savedCost];
      var rest := stack[..|stack| - 1];
      Then(Try(groups[top.pos..], rows', costs', cap, top.ranks, top.choice + 1), Chosen(rest),
           Backtrack(groups, rows', costs', cap, rest))
  }

  /** A search below `prefix`, then, if it fails, the continuation. */
  ghost function Then(below: Search, prefix: seq<nat>, after: Search): Search {
    if below.found.Some? then Search(Some(prefix + below.found.value), below.nodes)
    else Search(after.found, below.nodes + after.nodes)
  }

  /** Everything the loop still has to do from its current variables. */
  ghost function Remaining(groups: seq<Group>, rows: seq<nat>, costs: seq<real>, cap: nat, stack: seq<Frame>): Search
    requires |rows| == |costs| && ValidStack(stack, |rows|, |groups|)
  {
    Then(Explore(groups[|stack|..], rows, costs, cap), Chosen(stack), Backtrack(groups, rows, costs, cap, stack))
  }

  /** One choice of a position: what lies below it, then the later choices. */
  ghost function Choice(below: Search, r: nat, bump: nat, later: Search): Search {
    if below.found.Some? then Search(Some([r] + below.found.value), below.nodes + bump)
    else Search(later.found, below.nodes + bump + later.nodes)
  }

  lemma TryStep(
      todo: seq<Group>, g: Group, rest: seq<Group>, rows: seq<nat>, costs: seq<real>, cap: nat, ranks: seq<nat>,
      choice: nat)
    requires todo != [] && g == todo[0] && rest == todo[1..]
    requires |rows| == |costs| && InRange(ranks, |rows|) && choice < |ranks|
    ensures
      var r := ranks[choice];
      Try(todo, rows, costs, cap, ranks, choice)
      == Choice(Explore(rest, PlaceRows(rows, r, g), PlaceCost(costs, r, g), cap), r,
                if choice > 0 then 1 else 0, Try(todo, rows, costs, cap, ranks, choice + 1))
  {
  }

  /** Equal work, but for the node that a later choice of a position costs. */
  ghost predicate SameWorkBut(before: Search, after: Search, bump: nat) {
    before.found == after.found && before.nodes == after.nodes + bump
  }

  /** Searching a position and then the rest is searching below its choice, then its later choices, then
      the rest. */
  lemma ThenChoice(below: Search, r: nat, bump: nat, later: Search, prefix: seq<nat>, after: Search)
    ensures SameWorkBut(Then(Choice(below, r, bump, later), prefix, after),
                        Then(below, prefix + [r], Then(later, prefix, after)), bump)
  {
    if below.found.Some? {
      assert prefix + ([r] + below.found.value) == (prefix + [r]) + below.found.value;
    }
  }

  /** Undoing the top frame: its later choices, then the rest of the stack. */
  lemma BacktrackStep(groups: seq<Group>, rows: seq<nat>, costs: seq<real>, cap: nat, stack: seq<Frame>, f: Frame)
    requires |rows| == |costs| && ValidStack(stack, |rows|, |groups|) && ValidStack(stack + [f], |rows|, |groups|)
    requires f.pos == |stack| < |groups| && InRange(f.ranks, |rows|) && f.choice < |f.ranks|
    ensures
      var r := f.ranks[f.choice];
      var rows', costs' := rows[r := f.savedRows], costs[r := f.savedCost];
      Backtrack(groups, rows, costs, cap, stack + [f])
      == Then(Try(groups[f.pos..], rows', costs', cap, f.ranks, f.choice + 1), Chosen(stack),
              Backtrack(groups, rows', costs', cap, stack))
  {
    assert (stack + [f])[..|stack|] == stack && (stack + [f])[|stack|] == f;
  }

  lemma PushIsValid(stack: seq<Frame>, f: Frame, rankCount: nat, groupCount: nat)
    requires ValidStack(stack, rankCount, groupCount)
    requires f.pos == |stack| < groupCount && InRange(f.ranks, rankCount) && f.choice < |f.ranks|
    ensures ValidStack(stack + [f], rankCount, groupCount)
    ensures Chosen(stack + [f]) == Chosen(stack) + [f.ranks[f.choice]]
  {
  }

  lemma PopIsValid(stack: seq<Frame>, rankCount: nat, groupCount: nat)
    requires ValidStack(stack, rankCount, groupCount) && stack != []
    ensures ValidStack(stack[..|stack| - 1], rankCount, groupCount)
    ensures Chosen(stack[..|stack| - 1]) == Chosen(stack)[..|stack| - 1]
    ensures stack == stack[..|stack| - 1] + [stack[|stack| - 1]]
  {
  }

  /** The frame `f` can be pushed on the stack: it saves its rank's rows and cost. */
  ghost predicate Saves(groups: seq<Group>, rows: seq<nat>, costs: seq<real>, stack: seq<Frame>, f: Frame) {
    && |rows| == |costs| && ValidStack(stack, |rows|, |groups|)
    && f.pos == |stack| < |groups| && InRange(f.ranks, |rows|) && f.choice < |f.ranks|
    && f.savedRows == rows[f.ranks[f.choice]] && f.savedCost == costs[f.ranks[f.choice]]
  }

  /** Undoing a pushed frame gives back the rows and costs it was pushed on. */
  lemma PushedBacktrack(groups: seq<Group>, rows: seq<nat>, costs: seq<real>, cap: nat, stack: seq<Frame>, f: Frame)
    requires Saves(groups, rows, costs, stack, f) && ValidStack(stack + [f], |rows|, |groups|)
    ensures
      var r, g := f.ranks[f.choice], groups[f.pos];
      Backtrack(groups, PlaceRows(rows, r, g), PlaceCost(costs, r, g), cap, stack + [f])
      == Then(Try(groups[f.pos..], rows, costs, cap, f.ranks, f.choice + 1), Chosen(stack),
              Backtrack(groups, rows, costs, cap, stack))
  {
    var r, g := f.ranks[f.choice], groups[f.pos];
    var rows', costs' := PlaceRows(rows, r, g), PlaceCost(costs, r, g);
    assert rows'[r := f.savedRows] == rows;
    assert costs'[r := f.savedCost] == costs;
    BacktrackStep(groups, rows', costs', cap, stack, f);
  }

  /** A choice of position `pos`: what lies below it, then the later choices. */
  lemma ChoiceBelow(
      groups: seq<Group>, pos: nat, rows: seq<nat>, costs: seq<real>, cap: nat, ranks: seq<nat>, choice: nat)
    requires pos < |groups| && |rows| == |costs| && InRange(ranks, |rows|) && choice < |ranks|
    ensures
      var r, g := ranks[choice], groups[pos];
      Try(groups[pos..], rows, costs, cap, ranks, choice)
      == Choice(Explore(groups[pos + 1..], PlaceRows(rows, r, g), PlaceCost(costs, r, g), cap), r,
                if choice > 0 then 1 else 0, Try(groups[pos..], rows, costs, cap, ranks, choice + 1))
  {
    TryStep(groups[pos..], groups[pos], groups[pos + 1..], rows, costs, cap, ranks, choice);
  }

  /** A position's search from a choice on, then `rest`: below the choice, then its later choices, then `rest`. */
  lemma ChoiceThen(
      groups: seq<Group>, pos: nat, rows: seq<nat>, costs: seq<real>, cap: nat, ranks: seq<nat>, choice: nat,
      chosen: seq<nat>, rest: Search)
    requires pos < |groups| && |rows| == |costs| && InRange(ranks, |rows|) && choice < |ranks|
    ensures
      var r, g := ranks[choice], groups[pos];
      var below := Explore(groups[pos + 1..], PlaceRows(rows, r, g), PlaceCost(costs, r, g), cap);
      var later := Try(groups[pos..], rows, costs, cap, ranks, choice + 1);
      SameWorkBut(Then(Try(groups[pos..], rows, costs, cap, ranks, choice), chosen, rest),
                  Then(below, chosen + [r], Then(later, chosen, rest)), if choice > 0 then 1 else 0)
  {
    ChoiceBelow(groups, pos, rows, costs, cap, ranks, choice);
    var r, g := ranks[choice], groups[pos];
    var below := Explore(groups[pos + 1..], PlaceRows(rows, r, g), PlaceCost(costs, r, g), cap);
    var later := Try(groups[pos..], rows, costs, cap, ranks, choice + 1);
    ThenChoice(below, r, if choice > 0 then 1 else 0, later, chosen, rest);
  }

  /** What a pushed frame leaves: below the choice, then its later choices, then the rest of the stack. */
  lemma PushedRemaining(groups: seq<Group>, rows: seq<nat>, costs: seq<real>, cap: nat, stack: seq<Frame>, f: Frame)
    requires Saves(groups, rows, costs, stack, f)
    ensures ValidStack(stack + [f], |rows|, |groups|)
    ensures
      var r, g := f.ranks[f.choice], groups[f.pos];
      var below := Explore(groups[f.pos + 1..], PlaceRows(rows, r, g), PlaceCost(costs, r, g), cap);
      var later := Try(groups[f.pos..], rows, costs, cap, f.ranks, f.choice + 1);
      Remaining(groups, PlaceRows(rows, r, g), PlaceCost(costs, r, g), cap, stack + [f])
      == Then(below, Chosen(stack) + [r], Then(later, Chosen(stack), Backtrack(groups, rows, costs, cap, stack)))
  {
    PushIsValid(stack, f, |rows|, |groups|);
    PushedBacktrack(groups, rows, costs, cap, stack, f);
  }

  /** Taking a choice and pushing its frame leaves the same work, less the node of a later choice. */
  lemma PushKeepsWork(groups: seq<Group>, rows: seq<nat>, costs: seq<real>, cap: nat, stack: seq<Frame>, f: Frame)
    requires Saves(groups, rows, costs, stack, f)
    ensures ValidStack(stack + [f], |rows|, |groups|)
    ensures
      var r, g := f.ranks[f.choice], groups[f.pos];
      var before := Then(Try(groups[f.pos..], rows, costs, cap, f.ranks, f.choice), Chosen(stack),
                         Backtrack(groups, rows, costs, cap, stack));
      var after := Remaining(groups, PlaceRows(rows, r, g), PlaceCost(costs, r, g), cap, stack + [f]);
      SameWorkBut(before, after, if f.choice > 0 then 1 else 0)
  {
    PushedRemaining(groups, rows, costs, cap, stack, f);
    ChoiceThen(groups, f.pos, rows, costs, cap, f.ranks, f.choice, Chosen(stack),
        Backtrack(groups, rows, costs, cap, stack));
  }

  // ---------------------------------------------------------------- the loop

  ghost function PlacedMap(order: seq<nat>, ranks: seq<nat>): map<nat, nat>
    requires |ranks| <= |order|
  {
    if ranks == [] then map[]
    else PlacedMap(order, ranks[..|ranks| - 1])[order[|ranks| - 1] := ranks[|ranks| - 1]]
  }

  lemma {:induction false} PlacedMapContent(order: seq<nat>, ranks: seq<nat>)
    requires |ranks| <= |order| && Distinct(order)
    ensures PlacedMap(order, ranks).Keys == set k | 0 <= k < |ranks| :: order[k]
    ensures forall k :: 0 <= k < |ranks| ==> PlacedMap(order, ranks)[order[k]] == ranks[k]
    decreases |ranks|
  {
    if ranks != [] {
      PlacedMapContent(order, ranks[..|ranks| - 1]);
    }
  }

  lemma PlacedMapAppend(order: seq<nat>, ranks: seq<nat>, rank: nat)
    requires |ranks| < |order|
    ensures PlacedMap(order, ranks + [rank]) == PlacedMap(order, ranks)[order[|ranks|] := rank]
  {
    assert (ranks + [rank])[..|ranks|] == ranks;
  }

  lemma PlacedMapDelete(order: seq<nat>, ranks: seq<nat>)
    requires 0 < |ranks| <= |order| && Distinct(order)
    ensures PlacedMap(order, ranks) - {order[|ranks| - 1]} == PlacedMap(order, ranks[..|ranks| - 1])
  {
    PlacedMapContent(order, ranks[..|ranks| - 1]);
  }

  function Ordered(sizes: seq<nat>, costs: seq<real>, order: seq<nat>): (groups: seq<Group>)
    requires |sizes| == |costs| && InRange(order, |sizes|)
    ensures |groups| == |order|
  {
    seq(|order|, k requires 0 <= k < |order| => Group(sizes[order[k]], costs[order[k]]))
  }

  /** What the loop returns, in terms of the recursive search. */
  ghost function Verdict(total: Search, order: seq<nat>): Outcome
    requires total.found.Some? ==> |total.found.value| <= |order|
  {
    if total.nodes > PACK_NODE_BUDGET then BudgetExceeded(PACK_NODE_BUDGET)
    else if total.found.None? then NoFit
    else Placed(PlacedMap(order, total.found.value))
  }

  /** The loop variables that the source keeps beside its position. */
  datatype State = State(rows: seq<nat>, costs: seq<real>, placed: map<nat, nat>, stack: seq<Frame>, nodes: nat)

  ghost predicate ValidState(s: State, order: seq<nat>, numShards: nat) {
    && |s.rows| == |s.costs| == numShards
    && ValidStack(s.stack, numShards, |order|)
    && s.placed == PlacedMap(order, Chosen(s.stack))
    && s.nodes <= PACK_NODE_BUDGET
  }

  /** The nodes spent so far plus the work `rest` still to do make up the whole search. */
  ghost predicate Completes(s: State, rest: Search, total: Search) {
    rest.found == total.found && s.nodes + rest.nodes == total.nodes
  }

  ghost function Left(groups: seq<Group>, s: State, cap: nat): Search
    requires |s.rows| == |s.costs| && ValidStack(s.stack, |s.rows|, |groups|)
  {
    Remaining(groups, s.rows, s.costs, cap, s.stack)
  }

  ghost function LeftAfterDeadEnd(groups: seq<Group>, s: State, cap: nat): Search
    requires |s.rows| == |s.costs| && ValidStack(s.stack, |s.rows|, |groups|)
  {
    Backtrack(groups, s.rows, s.costs, cap, s.stack)
  }

  /** What is left from choice number `choice` of the position above the stack. */
  ghost function LeftFrom(groups: seq<Group>, s: State, cap: nat, ranks: seq<nat>, choice: nat): Search
    requires |s.rows| == |s.costs| && ValidStack(s.stack, |s.rows|, |groups|) && |s.stack| < |groups|
    requires InRange(ranks, |s.rows|) && choice <= |ranks|
  {
    Then(Try(groups[|s.stack|..], s.rows, s.costs, cap, ranks, choice), Chosen(s.stack),
        LeftAfterDeadEnd(groups, s, cap))
  }

  lemma NothingLeftFrom(groups: seq<Group>, s: State, cap: nat, ranks: seq<nat>)
    requires |s.rows| == |s.costs| && ValidStack(s.stack, |s.rows|, |groups|) && |s.stack| < |groups|
    requires InRange(ranks, |s.rows|)
    ensures LeftFrom(groups, s, cap, ranks, |ranks|) == LeftAfterDeadEnd(groups, s, cap)
  {
  }

  lemma SomethingLeftFrom(groups: seq<Group>, s: State, cap: nat, ranks: seq<nat>, choice: nat)
    requires |s.rows| == |s.costs| && ValidStack(s.stack, |s.rows|, |groups|) && |s.stack| < |groups|
    requires InRange(ranks, |s.rows|) && 0 < choice < |ranks|
    ensures LeftFrom(groups, s, cap, ranks, choice).nodes > 0
  {
  }

  /** The state with a choice taken. */
  function Pushed(groups: seq<Group>, order: seq<nat>, s: State, ranks: seq<nat>, choice: nat): State
    requires |s.rows| == |s.costs| && |s.stack| < |groups| == |order| && choice < |ranks| && ranks[choice] < |s.rows|
  {
    var pos, rank := |s.stack|, ranks[choice];
    State(PlaceRows(s.rows, rank, groups[pos]), PlaceCost(s.costs, rank, groups[pos]),
          s.placed[order[pos] := rank], s.stack + [Frame(pos, ranks, choice, s.rows[rank], s.costs[rank])], s.nodes + 1)
  }

  lemma PushedIsValid(groups: seq<Group>, order: seq<nat>, s: State, ranks: seq<nat>, choice: nat)
    requires |groups| == |order| && |s.stack| < |order| && ValidState(s, order, |s.rows|) && s.nodes < PACK_NODE_BUDGET
    requires InRange(ranks, |s.rows|) && choice < |ranks|
    ensures ValidState(Pushed(groups, order, s, ranks, choice), order, |s.rows|)
  {
    var rank := ranks[choice];
    PushIsValid(s.stack, Frame(|s.stack|, ranks, choice, s.rows[rank], s.costs[rank]), |s.rows|, |order|);
    PlacedMapAppend(order, Chosen(s.stack), rank);
  }

  lemma PushedKeepsWork(groups: seq<Group>, order: seq<nat>, s: State, cap: nat, ranks: seq<nat>, choice: nat)
    requires |groups| == |order| && |s.stack| < |order| && ValidState(s, order, |s.rows|)
    requires InRange(ranks, |s.rows|) && choice < |ranks|
    requires ValidStack(Pushed(groups, order, s, ranks, choice).stack, |s.rows|, |order|)
    ensures
      var t := Pushed(groups, order, s, ranks, choice);
      SameWorkBut(LeftFrom(groups, s, cap, ranks, choice), Left(groups, t, cap), if choice > 0 then 1 else 0)
  {
    var rank := ranks[choice];
    PushKeepsWork(groups, s.rows, s.costs, cap, s.stack, Frame(|s.stack|, ranks, choice, s.rows[rank], s.costs[rank]));
  }

  /** Take choice number `choice` of a position: save the rank, place the group, push the frame. */
  method Take(groups: seq<Group>, order: seq<nat>, s: State, cap: nat, ranks: seq<nat>, choice: nat) returns (t: State)
    requires |groups| == |order| && |s.stack| < |order| && Distinct(order)
    requires ValidState(s, order, |s.rows|) && s.nodes < PACK_NODE_BUDGET
    requires InRange(ranks, |s.rows|) && choice < |ranks|
    ensures ValidState(t, order, |s.rows|) && t.nodes == s.nodes + 1 && |t.stack| == |s.stack| + 1
    ensures
      SameWorkBut(LeftFrom(groups, s, cap, ranks, choice), Left(groups, t, cap), if choice > 0 then 1 else 0)
  {
    t := Pushed(groups, order, s, ranks, choice);
    PushedIsValid(groups, order, s, ranks, choice);
    PushedKeepsWork(groups, order, s, cap, ranks, choice);
  }

  /** Undo the top frame: give its rank back its rows and cost, and forget the placement. */
  method Undo(groups: seq<Group>, order: seq<nat>, s: State, cap: nat) returns (t: State)
    requires |groups| == |order| && Distinct(order) && ValidState(s, order, |s.rows|) && s.stack != []
    ensures ValidState(t, order, |s.rows|) && t.nodes == s.nodes && |t.stack| == |s.stack| - 1
    ensures
      var top := s.stack[|t.stack|];
      LeftAfterDeadEnd(groups, s, cap) == LeftFrom(groups, t, cap, top.ranks, top.choice + 1)
  {
    var below := |s.stack| - 1;
    var top := s.stack[below];
    var rank := top.ranks[top.choice];
    t := State(s.rows[rank := top.savedRows], s.costs[rank := top.savedCost],
               s.placed - {order[top.pos]}, s.stack[..below], s.nodes);
    PopIsValid(s.stack, |s.rows|, |order|);
    PlacedMapDelete(order, Chosen(s.stack));
    BacktrackStep(groups, s.rows, s.costs, cap, t.stack, top);
  }

  /** Undo the top frame of a failed search; either it has a later choice, or the stack below has failed too. */
  method UndoTop(groups: seq<Group>, order: seq<nat>, s: State, cap: nat, ghost total: Search) returns (t: State)
    requires |groups| == |order| && Distinct(order) && ValidState(s, order, |s.rows|) && s.stack != []
    requires Completes(s, LeftAfterDeadEnd(groups, s, cap), total)
    ensures ValidState(t, order, |s.rows|) && t.nodes == s.nodes && |t.stack| == |s.stack| - 1
    ensures
      var top := s.stack[|t.stack|];
      if top.choice + 1 < |top.ranks| then
        Completes(t, LeftFrom(groups, t, cap, top.ranks, top.choice + 1), total) && t.nodes < total.nodes
      else Completes(t, LeftAfterDeadEnd(groups, t, cap), total)
  {
    t := Undo(groups, order, s, cap);
    var top := s.stack[|t.stack|];
    if top.choice + 1 < |top.ranks| {
      SomethingLeftFrom(groups, t, cap, top.ranks, top.choice + 1);
    } else {
      NothingLeftFrom(groups, t, cap, top.ranks);
    }
  }

  method TakeLater(
      groups: seq<Group>, order: seq<nat>, s: State, cap: nat, ranks: seq<nat>, choice: nat, ghost total: Search)
    returns (t: State)
    requires |groups| == |order| && |s.stack| < |order| && Distinct(order)
    requires ValidState(s, order, |s.rows|) && s.nodes < PACK_NODE_BUDGET
    requires InRange(ranks, |s.rows|) && 0 < choice < |ranks|
    requires Completes(s, LeftFrom(groups, s, cap, ranks, choice), total)
    ensures ValidState(t, order, |s.rows|) && t.nodes == s.nodes + 1 && Completes(t, Left(groups, t, cap), total)
  {
    t := Take(groups, order, s, cap, ranks, choice);
  }

  datatype Retry = Resumed(s: State) | Exhausted | OutOfBudget(nodes: nat)

  /** The inner loop: pop frames, restoring rows and cost, until one has a later choice. */
  method PopToNextChoice(groups: seq<Group>, order: seq<nat>, start: State, cap: nat, ghost total: Search)
    returns (r: Retry)
    requires |groups| == |order| && Distinct(order) && ValidState(start, order, |start.rows|)
    requires Completes(start, LeftAfterDeadEnd(groups, start, cap), total)
    ensures r.Resumed? ==>
              && ValidState(r.s, order, |start.rows|) && r.s.nodes > start.nodes
              && Completes(r.s, Left(groups, r.s, cap), total)
    ensures r.Exhausted? ==> total.found.None? && total.nodes <= PACK_NODE_BUDGET
    ensures r.OutOfBudget? ==> r.nodes == PACK_NODE_BUDGET < total.nodes
  {
    var s := start;
    while s.stack != []
      invariant ValidState(s, order, |start.rows|) && s.nodes == start.nodes
      invariant Completes(s, LeftAfterDeadEnd(groups, s, cap), total)
      decreases |s.stack|
    {
      var top := s.stack[|s.stack| - 1];
      s := UndoTop(groups, order, s, cap, total);
      if top.choice + 1 >= |top.ranks| {
        continue;
      }
      if s.nodes >= PACK_NODE_BUDGET {
        return OutOfBudget(s.nodes);
      }
      s := TakeLater(groups, order, s, cap, top.ranks, top.choice + 1, total);
      return Resumed(s);
    }
    return Exhausted;
  }

  /** The whole search, as the source runs it. */
  method PackGroups(sizes: seq<nat>, groupCosts: seq<real>, order: seq<nat>, numShards: nat, cap: nat)
    returns (outcome: Outcome)
    requires |sizes| == |groupCosts|
    requires Distinct(order) && InRange(order, |sizes|)
    ensures
      var total := Explore(Ordered(sizes, groupCosts, order), Zeros(numShards), ZeroCosts(numShards), cap);
      (total.found.Some? ==> |total.found.value| == |order|) && outcome == Verdict(total, order)
  {
    var groups := Ordered(sizes, groupCosts, order);
    var s := State(Zeros(numShards), ZeroCosts(numShards), map[], [], 0);
    ghost var total := Explore(groups, s.rows, s.costs, cap);
    ExploreSound(groups, s.rows, s.costs, cap);
    assert groups[0..] == groups;
    assert total.found.Some? ==> Chosen(s.stack) + total.found.value == total.found.value;
    while true
      invariant ValidState(s, order, numShards) && Completes(s, Left(groups, s, cap), total)
      decreases PACK_NODE_BUDGET - s.nodes
    {
      var pos := |s.stack|;
      if pos == |order| {
        assert Chosen(s.stack) + [] == Chosen(s.stack);
        return Placed(s.placed);
      }
      if s.nodes >= PACK_NODE_BUDGET {
        return BudgetExceeded(s.nodes);
      }
      var ranks := Candidates(s.rows, s.costs, groups[pos].size, cap);
      if ranks != [] {
        s := Take(groups, order, s, cap, ranks, 0);
        continue;
      }
      assert groups[pos..][0] == groups[pos];
      assert Try(groups[pos..], s.rows, s.costs, cap, ranks, 0) == Search(None, 0);
      assert Explore(groups[pos..], s.rows, s.costs, cap) == Search(None, 1);
      var retry := PopToNextChoice(groups, order, s.(nodes := s.nodes + 1), cap, total);
      match retry
      case Resumed(t) => s := t;
      case Exhausted => return NoFit;
      case OutOfBudget(nodes) => return BudgetExceeded(nodes);
    }
  }

  function Zeros(n: nat): (s: seq<nat>)
    ensures |s| == n && forall i :: 0 <= i < n ==> s[i] == 0
  {
    seq(n, _ => 0)
  }

  function ZeroCosts(n: nat): (s: seq<real>)
    ensures |s| == n && forall i :: 0 <= i < n ==> s[i] == 0.0
  {
    seq(n, _ => 0.0)
  }

  // ---------------------------------------------------------------- soundness and completeness

  /** `ranks` places every group of `todo` in turn without passing the cap. */
  ghost predicate Fits(todo: seq<Group>, rows: seq<nat>, ranks: seq<nat>, cap: nat)
    decreases |todo|
  {
    && |ranks| == |todo|
    && (todo != [] ==>
          && ranks[0] < |rows|
          && rows[ranks[0]] + todo[0].size <= cap
          && Fits(todo[1..], PlaceRows(rows, ranks[0], todo[0]), ranks[1..], cap))
  }

  /** Whatever the search finds fits. */
  lemma {:induction false} ExploreSound(todo: seq<Group>, rows: seq<nat>, costs: seq<real>, cap: nat)
    requires |rows| == |costs|
    ensures
      var found := Explore(todo, rows, costs, cap).found;
      found.Some? ==> Fits(todo, rows, found.value, cap)
    decreases |todo|, 1, 0
  {
    if todo != [] {
      TrySound(todo, rows, costs, cap, CandidateRanks(rows, costs, todo[0].size, cap), 0);
    }
  }

  lemma {:induction false} TrySound(
      todo: seq<Group>, rows: seq<nat>, costs: seq<real>, cap: nat, ranks: seq<nat>, choice: nat)
    requires todo != [] && |rows| == |costs| && InRange(ranks, |rows|) && choice <= |ranks|
    requires Roomy(ranks, rows, todo[0].size, cap)
    ensures
      var found := Try(todo, rows, costs, cap, ranks, choice).found;
      found.Some? ==> Fits(todo, rows, found.value, cap)
    decreases |todo|, 0, |ranks| - choice
  {
    if choice < |ranks| {
      var r := ranks[choice];
      var rows', costs' := PlaceRows(rows, r, todo[0]), PlaceCost(costs, r, todo[0]);
      ExploreSound(todo[1..], rows', costs', cap);
      TrySound(todo, rows, costs, cap, ranks, choice + 1);
      var below := Explore(todo[1..], rows', costs', cap).found;
      if below.Some? {
        assert ([r] + below.value)[1..] == below.value;
      }
    }
  }

  function Swap<T>(s: seq<T>, a: nat, b: nat): seq<T>
    requires a < |s| && b < |s|
  {
    s[a := s[b]][b := s[a]]
  }

  function SwapRank(r: nat, a: nat, b: nat): nat {
    if r == a then b else if r == b then a else r
  }

  ghost function SwapRanks(ranks: seq<nat>, a: nat, b: nat): seq<nat> {
    seq(|ranks|, k requires 0 <= k < |ranks| => SwapRank(ranks[k], a, b))
  }

  /** Ranks are interchangeable: exchanging two ranks everywhere keeps a placement legal. */
  lemma {:induction false} SwapFits(todo: seq<Group>, rows: seq<nat>, ranks: seq<nat>, cap: nat, a: nat, b: nat)
    requires a < |rows| && b < |rows| && Fits(todo, rows, ranks, cap)
    ensures Fits(todo, Swap(rows, a, b), SwapRanks(ranks, a, b), cap)
    decreases |todo|
  {
    if todo != [] {
      var r := SwapRank(ranks[0], a, b);
      SwapFits(todo[1..], PlaceRows(rows, ranks[0], todo[0]), ranks[1..], cap, a, b);
      assert Swap(PlaceRows(rows, ranks[0], todo[0]), a, b) == PlaceRows(Swap(rows, a, b), r, todo[0]);
      assert SwapRanks(ranks, a, b)[1..] == SwapRanks(ranks[1..], a, b);
    }
  }

  /** Sending the first group to a rank in the same state instead, and exchanging the two ranks later on,
      keeps a placement legal. */
  lemma ReplaceFirst(todo: seq<Group>, rows: seq<nat>, ranks: seq<nat>, cap: nat, q: nat)
    requires todo != [] && Fits(todo, rows, ranks, cap) && q < |rows| && rows[q] == rows[ranks[0]]
    ensures Fits(todo[1..], PlaceRows(rows, q, todo[0]), SwapRanks(ranks[1..], q, ranks[0]), cap)
  {
    var r, g := ranks[0], todo[0];
    SwapFits(todo[1..], PlaceRows(rows, r, g), ranks[1..], cap, q, r);
    assert Swap(PlaceRows(rows, r, g), q, r) == PlaceRows(rows, q, g);
  }

  /** A failed search failed below every candidate of its first group. */
  lemma ExploreNone(todo: seq<Group>, rows: seq<nat>, costs: seq<real>, cap: nat, i: nat)
    requires todo != [] && |rows| == |costs| && i < |CandidateRanks(rows, costs, todo[0].size, cap)|
    requires Explore(todo, rows, costs, cap).found.None?
    ensures
      var q := CandidateRanks(rows, costs, todo[0].size, cap)[i];
      && q < |rows|
      && Explore(todo[1..], PlaceRows(rows, q, todo[0]), PlaceCost(costs, q, todo[0]), cap).found.None?
  {
    TryNone(todo, rows, costs, cap, CandidateRanks(rows, costs, todo[0].size, cap), 0, i);
  }

  /** A failed search rules out every placement, although it tried one rank per state. */
  lemma {:induction false} ExploreComplete(
      todo: seq<Group>, rows: seq<nat>, costs: seq<real>, cap: nat, ranks: seq<nat>)
    requires |rows| == |costs| && Explore(todo, rows, costs, cap).found.None?
    ensures !Fits(todo, rows, ranks, cap)
    decreases |todo|
  {
    if Fits(todo, rows, ranks, cap) && todo != [] {
      var g, r := todo[0], ranks[0];
      var candidates := CandidateRanks(rows, costs, g.size, cap);
      CandidatesRepresent(rows, costs, g.size, cap, r);
      var i :| 0 <= i < |candidates| && SameState(rows, costs, candidates[i], r);
      var q := candidates[i];
      ExploreNone(todo, rows, costs, cap, i);
      ReplaceFirst(todo, rows, ranks, cap, q);
      ExploreComplete(todo[1..], PlaceRows(rows, q, g), PlaceCost(costs, q, g), cap, SwapRanks(ranks[1..], q, r));
    }
  }

  lemma {:induction false} TryNone(
      todo: seq<Group>, rows: seq<nat>, costs: seq<real>, cap: nat, ranks: seq<nat>, choice: nat, i: nat)
    requires todo != [] && |rows| == |costs| && InRange(ranks, |rows|) && choice <= i < |ranks|
    requires Try(todo, rows, costs, cap, ranks, choice).found.None?
    ensures Explore(todo[1..], PlaceRows(rows, ranks[i], todo[0]), PlaceCost(costs, ranks[i], todo[0]), cap).found.None?
    decreases i - choice
  {
    TryStep(todo, todo[0], todo[1..], rows, costs, cap, ranks, choice);
    if choice < i {
      TryNone(todo, rows, costs, cap, ranks, choice + 1, i);
    }
  }

  // ---------------------------------------------------------------- the order-free meaning

  /** Rows of each group that `rankOf` sends to rank `r`. */
  ghost function Share(sizes: seq<nat>, rankOf: seq<nat>, r: nat): (share: seq<int>)
    requires |rankOf| == |sizes|
  {
    seq(|sizes|, g requires 0 <= g < |sizes| => if rankOf[g] == r then sizes[g] else 0)
  }

  /** `rankOf` sends every group whole to one rank, and no rank gets more than `cap` rows. */
  ghost predicate Packs(sizes: seq<nat>, rankOf: seq<nat>, numShards: nat, cap: nat) {
    && |rankOf| == |sizes|
    && InRange(rankOf, numShards)
    && forall r: nat :: r < numShards ==> Sum(Share(sizes, rankOf, r)) <= cap
  }

  ghost function Carried(todo: seq<Group>, ranks: seq<nat>, r: nat): nat
    requires |todo| == |ranks|
  {
    if todo == [] then 0
    else (if ranks[0] == r then todo[0].size else 0) + Carried(todo[1..], ranks[1..], r)
  }

  /** Placing group by group stays within the cap iff the final row counts do. */
  lemma {:induction false} FitsIffFinalRowsFit(todo: seq<Group>, rows: seq<nat>, ranks: seq<nat>, cap: nat)
    requires forall r :: 0 <= r < |rows| ==> rows[r] <= cap
    ensures Fits(todo, rows, ranks, cap) <==>
              && |ranks| == |todo| && InRange(ranks, |rows|)
              && forall r :: 0 <= r < |rows| ==> rows[r] + Carried(todo, ranks, r) <= cap
    decreases |todo|
  {
    if todo != [] && |ranks| == |todo| && ranks[0] < |rows| {
      var q := ranks[0];
      if rows[q] + todo[0].size <= cap {
        var rows' := PlaceRows(rows, q, todo[0]);
        FitsIffFinalRowsFit(todo[1..], rows', ranks[1..], cap);
        assert forall r :: 0 <= r < |rows| ==>
            rows[r] + Carried(todo, ranks, r) == rows'[r] + Carried(todo[1..], ranks[1..], r);
        assert InRange(ranks, |rows|) <==> InRange(ranks[1..], |rows|) by {
          assert ranks == [q] + ranks[1..];
        }
      } else {
        assert rows[q] + Carried(todo, ranks, q) > cap;
      }
    }
  }

  lemma {:induction false} CarriedIsShare(
      sizes: seq<nat>, costs: seq<real>, order: seq<nat>, ranks: seq<nat>, rankOf: seq<nat>, r: nat)
    requires |sizes| == |costs| == |rankOf| && InRange(order, |sizes|) && |ranks| == |order|
    requires forall k :: 0 <= k < |order| ==> ranks[k] == rankOf[order[k]]
    ensures Carried(Ordered(sizes, costs, order), ranks, r) == Load(Share(sizes, rankOf, r), order)
    decreases |order|
  {
    if order != [] {
      var share := Share(sizes, rankOf, r);
      assert Ordered(sizes, costs, order)[1..] == Ordered(sizes, costs, order[1..]);
      CarriedIsShare(sizes, costs, order[1..], ranks[1..], rankOf, r);
      assert order == [order[0]] + order[1..];
      LoadAppend(share, [order[0]], order[1..]);
      LoadOne(share, order[0]);
    }
  }

  /** A placement in search order and a packing by group index are the same thing. */
  lemma FitsIffPacks(
      sizes: seq<nat>, costs: seq<real>, order: seq<nat>, ranks: seq<nat>, rankOf: seq<nat>, numShards: nat, cap: nat)
    requires |sizes| == |costs| == |rankOf| && Perm(order, |sizes|) && InRange(order, |sizes|) && |ranks| == |order|
    requires forall k :: 0 <= k < |order| ==> ranks[k] == rankOf[order[k]]
    ensures Fits(Ordered(sizes, costs, order), Zeros(numShards), ranks, cap) <==> Packs(sizes, rankOf, numShards, cap)
  {
    PermMember(order, |sizes|);
    FitsIffFinalRowsFit(Ordered(sizes, costs, order), Zeros(numShards), ranks, cap);
    forall r: nat
      ensures Carried(Ordered(sizes, costs, order), ranks, r) == Sum(Share(sizes, rankOf, r))
    {
      var share := Share(sizes, rankOf, r);
      CarriedIsShare(sizes, costs, order, ranks, rankOf, r);
      LoadPermutation(share, order, Range(|sizes|));
      LoadRangeIsSum(share, |sizes|);
      assert share[..|sizes|] == share;
    }
    var zeros, groups := Zeros(numShards), Ordered(sizes, costs, order);
    assert forall r: nat :: r < numShards ==> zeros[r] + Carried(groups, ranks, r) == Sum(Share(sizes, rankOf, r));
    if InRange(ranks, numShards) {
      forall g | 0 <= g < |rankOf|
        ensures rankOf[g] < numShards
      {
        assert g in order;
      }
    }
  }

  ghost function RankSeq(rankOf: map<nat, nat>, n: nat): seq<nat>
    requires forall g: nat :: g < n ==> g in rankOf
  {
    seq(n, g requires 0 <= g < n => rankOf[g])
  }

  /** What the three outcomes of the search mean, whatever order the groups were tried in. */
  lemma OutcomeMeaning(sizes: seq<nat>, costs: seq<real>, order: seq<nat>, numShards: nat, cap: nat)
    requires |sizes| == |costs| && Perm(order, |sizes|) && InRange(order, |sizes|)
    ensures
      var total := Explore(Ordered(sizes, costs, order), Zeros(numShards), ZeroCosts(numShards), cap);
      && (total.found.Some? <==> exists rankOf :: Packs(sizes, rankOf, numShards, cap))
      && (total.found.Some? ==>
            && |total.found.value| == |order|
            && var placed := PlacedMap(order, total.found.value);
            (forall g: nat :: g < |sizes| <==> g in placed)
            && Packs(sizes, RankSeq(placed, |sizes|), numShards, cap))
  {
    PermMember(order, |sizes|);
    var groups := Ordered(sizes, costs, order);
    var total := Explore(groups, Zeros(numShards), ZeroCosts(numShards), cap);
    if total.found.Some? {
      ExploreSound(groups, Zeros(numShards), ZeroCosts(numShards), cap);
      PlacedMapCovers(order, total.found.value, |sizes|);
      var placed := PlacedMap(order, total.found.value);
      FitsIffPacks(sizes, costs, order, total.found.value, RankSeq(placed, |sizes|), numShards, cap);
    } else {
      forall rankOf | Packs(sizes, rankOf, numShards, cap)
        ensures false
      {
        var ranks := seq(|order|, k requires 0 <= k < |order| => rankOf[order[k]]);
        FitsIffPacks(sizes, costs, order, ranks, rankOf, numShards, cap);
        ExploreComplete(groups, Zeros(numShards), ZeroCosts(numShards), cap, ranks);
      }
    }
  }

  lemma PlacedMapCovers(order: seq<nat>, ranks: seq<nat>, n: nat)
    requires Perm(order, n) && |ranks| == |order|
    ensures |order| == n && InRange(order, n)
    ensures forall g: nat :: g < n <==> g in PlacedMap(order, ranks)
    ensures forall k :: 0 <= k < n ==> PlacedMap(order, ranks)[order[k]] == ranks[k]
  {
    PermMember(order, n);
    PlacedMapContent(order, ranks);
    forall k | 0 <= k < |order|
      ensures order[k] < n
    {
      assert order[k] in order;
    }
    forall g: nat
      ensures g < n <==> g in PlacedMap(order, ranks)
    {
      if g < n {
        assert g in order;
      }
    }
  }
}
