/** Which packing the search finds (arctic_platform/common/utils/balanced_batch.py, _pack_groups): the first
    one of all, comparing the ranks group by group by what they have cost so far and then by index. When the
    search never backtracks, every group sits on the cheapest rank that had room for it. */
module PackChoice {
  import opened Basics
  import opened PackSearch

  // ---------------------------------------------------------------- the running rows and costs

  /** The rows after the first `k` groups are placed. */
  ghost function RowsAfter(todo: seq<Group>, rows: seq<nat>, ranks: seq<nat>, k: nat): (after: seq<nat>)
    requires k <= |todo| == |ranks| && InRange(ranks, |rows|)
    ensures |after| == |rows|
  {
    if k == 0 then rows else PlaceRows(RowsAfter(todo, rows, ranks, k - 1), ranks[k - 1], todo[k - 1])
  }

  /** The costs after the first `k` groups are placed. */
  ghost function CostsAfter(todo: seq<Group>, costs: seq<real>, ranks: seq<nat>, k: nat): (after: seq<real>)
    requires k <= |todo| == |ranks| && InRange(ranks, |costs|)
    ensures |after| == |costs|
  {
    if k == 0 then costs else PlaceCost(CostsAfter(todo, costs, ranks, k - 1), ranks[k - 1], todo[k - 1])
  }

  lemma {:induction false} RowsAfterAgree(todo: seq<Group>, rows: seq<nat>, a: seq<nat>, b: seq<nat>, k: nat)
    requires k <= |todo| == |a| == |b| && InRange(a, |rows|) && InRange(b, |rows|)
    requires forall j :: 0 <= j < k ==> a[j] == b[j]
    ensures RowsAfter(todo, rows, a, k) == RowsAfter(todo, rows, b, k)
    decreases k
  {
    if k > 0 {
      RowsAfterAgree(todo, rows, a, b, k - 1);
    }
  }

  // ---------------------------------------------------------------- the first choice that works

  /** No placement of `todo` that fits sends its first group to a rank tried before `r`. */
  ghost predicate NoneBefore(todo: seq<Group>, rows: seq<nat>, costs: seq<real>, r: nat, cap: nat) {
    forall other: seq<nat> :: other != [] && TriedBefore(costs, other[0], r) ==> !Fits(todo, rows, other, cap)
  }

  ghost predicate FirstChoices(todo: seq<Group>, rows: seq<nat>, costs: seq<real>, ranks: seq<nat>, cap: nat)
    requires |rows| == |costs|
    decreases |todo|
  {
    && |ranks| == |todo|
    && (todo != [] ==>
          && ranks[0] < |rows| && NoneBefore(todo, rows, costs, ranks[0], cap)
          && FirstChoices(todo[1..], PlaceRows(rows, ranks[0], todo[0]), PlaceCost(costs, ranks[0], todo[0]),
              ranks[1..], cap))
  }

  /** If the search below candidate `i` of the first group fails, no placement that fits uses a rank in its
      state for that group. */
  lemma FailedCandidate(todo: seq<Group>, rows: seq<nat>, costs: seq<real>, cap: nat, q: nat, other: seq<nat>)
    requires todo != [] && |rows| == |costs| && q < |rows|
    requires Explore(todo[1..], PlaceRows(rows, q, todo[0]), PlaceCost(costs, q, todo[0]), cap).found.None?
    requires other != [] && other[0] < |rows| && rows[other[0]] == rows[q]
    ensures !Fits(todo, rows, other, cap)
  {
    if Fits(todo, rows, other, cap) {
      ReplaceFirst(todo, rows, other, cap, q);
      ExploreComplete(todo[1..], PlaceRows(rows, q, todo[0]), PlaceCost(costs, q, todo[0]), cap,
          SwapRanks(other[1..], q, other[0]));
    }
  }

  /** The search below rank `r` of the first group. */
  ghost function Below(todo: seq<Group>, rows: seq<nat>, costs: seq<real>, cap: nat, r: nat): Search
    requires todo != [] && |rows| == |costs| && r < |rows|
  {
    Explore(todo[1..], PlaceRows(rows, r, todo[0]), PlaceCost(costs, r, todo[0]), cap)
  }

  ghost predicate FailsBelow(todo: seq<Group>, rows: seq<nat>, costs: seq<real>, cap: nat, r: nat)
    requires todo != [] && |rows| == |costs|
  {
    r < |rows| ==> Below(todo, rows, costs, cap, r).found.None?
  }

  lemma TryIsChoice(todo: seq<Group>, rows: seq<nat>, costs: seq<real>, cap: nat, ranks: seq<nat>, choice: nat)
    requires todo != [] && |rows| == |costs| && InRange(ranks, |rows|) && choice < |ranks|
    ensures Try(todo, rows, costs, cap, ranks, choice)
         == Choice(Below(todo, rows, costs, cap, ranks[choice]), ranks[choice], if choice > 0 then 1 else 0,
                   Try(todo, rows, costs, cap, ranks, choice + 1))
  {
    TryStep(todo, todo[0], todo[1..], rows, costs, cap, ranks, choice);
  }

  /** Searches of one position from each choice on, in terms of the searches below its ranks. */
  ghost predicate Chained(ranks: seq<nat>, below: seq<Search>, from: seq<Search>) {
    && |ranks| == |below| && |from| == |ranks| + 1 && from[|ranks|].found.None?
    && forall i :: 0 <= i < |ranks| ==> from[i] == Choice(below[i], ranks[i], if i > 0 then 1 else 0, from[i + 1])
  }

  /** The first choice that succeeds gives the answer. */
  lemma {:induction false} FirstSuccess(ranks: seq<nat>, below: seq<Search>, from: seq<Search>, choice: nat)
    returns (i: nat)
    requires Chained(ranks, below, from) && choice < |from| && from[choice].found.Some?
    ensures choice <= i < |ranks| && below[i].found.Some?
            && from[choice].found.value == [ranks[i]] + below[i].found.value
    ensures forall j :: choice <= j < i ==> below[j].found.None?
    decreases |ranks| - choice
  {
    assert choice < |ranks|;
    assert from[choice] == Choice(below[choice], ranks[choice], if choice > 0 then 1 else 0, from[choice + 1]);
    if below[choice].found.Some? {
      i := choice;
    } else {
      i := FirstSuccess(ranks, below, from, choice + 1);
    }
  }

  lemma TriesAreChained(
      todo: seq<Group>, rows: seq<nat>, costs: seq<real>, cap: nat, ranks: seq<nat>, below: seq<Search>,
      from: seq<Search>)
    requires todo != [] && |rows| == |costs| && InRange(ranks, |rows|)
    requires |below| == |ranks| && forall i :: 0 <= i < |ranks| ==> below[i] == Below(todo, rows, costs, cap, ranks[i])
    requires |from| == |ranks| + 1
    requires forall i :: 0 <= i <= |ranks| ==> from[i] == Try(todo, rows, costs, cap, ranks, i)
    ensures Chained(ranks, below, from)
  {
    forall i | 0 <= i < |ranks|
      ensures from[i] == Choice(below[i], ranks[i], if i > 0 then 1 else 0, from[i + 1])
    {
      TryIsChoice(todo, rows, costs, cap, ranks, i);
    }
  }

  /** The choice that succeeds, and the failure of every choice before it. */
  lemma FindChoice(todo: seq<Group>, rows: seq<nat>, costs: seq<real>, cap: nat, ranks: seq<nat>) returns (i: nat)
    requires todo != [] && |rows| == |costs| && InRange(ranks, |rows|)
    requires Try(todo, rows, costs, cap, ranks, 0).found.Some?
    ensures i < |ranks| && Below(todo, rows, costs, cap, ranks[i]).found.Some?
    ensures Try(todo, rows, costs, cap, ranks, 0).found.value
         == [ranks[i]] + Below(todo, rows, costs, cap, ranks[i]).found.value
    ensures forall j :: 0 <= j < i ==> FailsBelow(todo, rows, costs, cap, ranks[j])
  {
    var n := |ranks|;
    var below := seq(n, j requires 0 <= j < n => Below(todo, rows, costs, cap, ranks[j]));
    var from := seq(n + 1, j requires 0 <= j <= n => Try(todo, rows, costs, cap, ranks, j));
    TriesAreChained(todo, rows, costs, cap, ranks, below, from);
    i := FirstSuccess(ranks, below, from, 0);
    forall j | 0 <= j < i ensures FailsBelow(todo, rows, costs, cap, ranks[j]) {
      assert below[j] == Below(todo, rows, costs, cap, ranks[j]);
    }
  }

  lemma LowerIsTriedToo(costs: seq<real>, a: nat, q: nat, b: nat)
    requires a <= q < |costs| && costs[a] == costs[q] && TriedBefore(costs, q, b)
    ensures TriedBefore(costs, a, b)
  {
  }

  lemma InOrderByIndex(costs: seq<real>, ranks: seq<nat>, j: nat, i: nat)
    requires AllTriedInOrder(costs, ranks) && j < |ranks| && i < |ranks| && TriedBefore(costs, ranks[j], ranks[i])
    ensures j < i
  {
    var here, there := ranks[i], ranks[j];
    assert i < j ==> TriedBefore(costs, here, there);
  }

  /** A rank with room that is tried before candidate `i` is in the state of an earlier candidate. */
  lemma EarlierCandidate(
      found: seq<nat>, rows: seq<nat>, costs: seq<real>, size: nat, cap: nat, i: nat, q: nat) returns (j: nat)
    requires |rows| == |costs| && ListsCandidates(found, rows, costs, size, cap) && i < |found|
    requires TriedBefore(costs, q, found[i]) && rows[q] + size <= cap
    ensures j < i && found[j] < |rows| && rows[found[j]] == rows[q]
  {
    assert ListedFor(found, rows, costs, q);
    j :| 0 <= j < |found| && SameState(rows, costs, found[j], q) && found[j] <= q;
    LowerIsTriedToo(costs, found[j], q, found[i]);
    InOrderByIndex(costs, found, j, i);
  }

  lemma ChosenIsFirst(todo: seq<Group>, rows: seq<nat>, costs: seq<real>, cap: nat, found: seq<nat>, i: nat)
    requires todo != [] && |rows| == |costs| && found == CandidateRanks(rows, costs, todo[0].size, cap) && i < |found|
    requires InRange(found, |rows|) && forall j :: 0 <= j < i ==> FailsBelow(todo, rows, costs, cap, found[j])
    ensures NoneBefore(todo, rows, costs, found[i], cap)
  {
    CandidatesAreListed(rows, costs, todo[0].size, cap);
    forall other: seq<nat> | other != [] && TriedBefore(costs, other[0], found[i])
      ensures !Fits(todo, rows, other, cap)
    {
      if Fits(todo, rows, other, cap) {
        var j := EarlierCandidate(found, rows, costs, todo[0].size, cap, i, other[0]);
        assert FailsBelow(todo, rows, costs, cap, found[j]);
        FailedCandidate(todo, rows, costs, cap, found[j], other);
      }
    }
  }

  lemma {:induction false} FoundIsFirst(todo: seq<Group>, rows: seq<nat>, costs: seq<real>, cap: nat)
    requires |rows| == |costs| && Explore(todo, rows, costs, cap).found.Some?
    ensures FirstChoices(todo, rows, costs, Explore(todo, rows, costs, cap).found.value, cap)
    decreases |todo|
  {
    if todo != [] {
      var candidates := CandidateRanks(rows, costs, todo[0].size, cap);
      var i := FindChoice(todo, rows, costs, cap, candidates);
      ChosenIsFirst(todo, rows, costs, cap, candidates, i);
      var q := candidates[i];
      FoundIsFirst(todo[1..], PlaceRows(rows, q, todo[0]), PlaceCost(costs, q, todo[0]), cap);
      var below := Explore(todo[1..], PlaceRows(rows, q, todo[0]), PlaceCost(costs, q, todo[0]), cap).found.value;
      assert ([q] + below)[1..] == below;
    }
  }

  // ---------------------------------------------------------------- searches that never backtrack

  /** Rank `r` has room for the first group, and every other rank with room is tried after it. */
  ghost predicate CheapestWithRoom(todo: seq<Group>, rows: seq<nat>, costs: seq<real>, r: nat, cap: nat)
    requires todo != [] && |rows| == |costs|
  {
    && r < |rows| && rows[r] + todo[0].size <= cap
    && forall q: nat :: q < |rows| && q != r && rows[q] + todo[0].size <= cap ==> TriedBefore(costs, r, q)
  }

  ghost predicate GreedyChoices(todo: seq<Group>, rows: seq<nat>, costs: seq<real>, ranks: seq<nat>, cap: nat)
    requires |rows| == |costs|
    decreases |todo|
  {
    && |ranks| == |todo|
    && (todo != [] ==>
          && CheapestWithRoom(todo, rows, costs, ranks[0], cap)
          && GreedyChoices(todo[1..], PlaceRows(rows, ranks[0], todo[0]), PlaceCost(costs, ranks[0], todo[0]),
              ranks[1..], cap))
  }

  /** A successful search spends at least one node per group. */
  lemma {:induction false} NodesPerGroup(todo: seq<Group>, rows: seq<nat>, costs: seq<real>, cap: nat)
    requires |rows| == |costs| && Explore(todo, rows, costs, cap).found.Some?
    ensures Explore(todo, rows, costs, cap).nodes >= |todo|
    decreases |todo|, 1, 0
  {
    if todo != [] {
      NodesPerChoice(todo, rows, costs, cap, CandidateRanks(rows, costs, todo[0].size, cap), 0);
    }
  }

  lemma {:induction false} NodesPerChoice(
      todo: seq<Group>, rows: seq<nat>, costs: seq<real>, cap: nat, ranks: seq<nat>, choice: nat)
    requires todo != [] && |rows| == |costs| && InRange(ranks, |rows|) && choice <= |ranks|
    requires Try(todo, rows, costs, cap, ranks, choice).found.Some?
    ensures Try(todo, rows, costs, cap, ranks, choice).nodes >= |todo| - 1 + (if choice > 0 then 1 else 0)
    decreases |todo|, 0, |ranks| - choice
  {
    var r := ranks[choice];
    TryIsChoice(todo, rows, costs, cap, ranks, choice);
    if Below(todo, rows, costs, cap, r).found.Some? {
      NodesPerGroup(todo[1..], PlaceRows(rows, r, todo[0]), PlaceCost(costs, r, todo[0]), cap);
    } else {
      NodesPerChoice(todo, rows, costs, cap, ranks, choice + 1);
    }
  }

  /** One node per group means that the first candidate worked everywhere. */
  lemma FirstCandidateWorks(todo: seq<Group>, rows: seq<nat>, costs: seq<real>, cap: nat, candidates: seq<nat>)
    requires todo != [] && |rows| == |costs| && candidates == CandidateRanks(rows, costs, todo[0].size, cap)
    requires Explore(todo, rows, costs, cap).found.Some? && Explore(todo, rows, costs, cap).nodes == |todo|
    ensures candidates != [] && candidates[0] < |rows|
    ensures
      var q := candidates[0];
      var below := Explore(todo[1..], PlaceRows(rows, q, todo[0]), PlaceCost(costs, q, todo[0]), cap);
      && below.found.Some? && below.nodes == |todo| - 1
      && Explore(todo, rows, costs, cap).found.value == [q] + below.found.value
  {
    assert candidates != [];
    TryIsChoice(todo, rows, costs, cap, candidates, 0);
    if Below(todo, rows, costs, cap, candidates[0]).found.None? {
      NodesPerChoice(todo, rows, costs, cap, candidates, 1);
    }
  }

  lemma TriedBeforeEqual(costs: seq<real>, r: nat, a: nat, q: nat)
    requires TriedBefore(costs, r, a) && a <= q < |costs| && costs[a] == costs[q]
    ensures TriedBefore(costs, r, q)
  {
  }

  lemma FirstCandidateIsCheapest(todo: seq<Group>, rows: seq<nat>, costs: seq<real>, cap: nat, found: seq<nat>)
    requires todo != [] && |rows| == |costs| && ListsCandidates(found, rows, costs, todo[0].size, cap) && found != []
    ensures CheapestWithRoom(todo, rows, costs, found[0], cap)
  {
    forall q: nat | q < |rows| && q != found[0] && rows[q] + todo[0].size <= cap
      ensures TriedBefore(costs, found[0], q)
    {
      assert ListedFor(found, rows, costs, q);
      FirstComesBefore(rows, costs, found, q);
    }
  }

  lemma FirstComesBefore(rows: seq<nat>, costs: seq<real>, found: seq<nat>, q: nat)
    requires |rows| == |costs| && InRange(found, |rows|) && found != [] && AllTriedInOrder(costs, found)
    requires q < |rows| && q != found[0] && ListedFor(found, rows, costs, q)
    ensures TriedBefore(costs, found[0], q)
  {
    var i :| 0 <= i < |found| && SameState(rows, costs, found[i], q) && found[i] <= q;
    if i > 0 {
      assert TriedBefore(costs, found[0], found[i]);
      TriedBeforeEqual(costs, found[0], found[i], q);
    }
  }

  lemma {:induction false} FoundIsGreedy(todo: seq<Group>, rows: seq<nat>, costs: seq<real>, cap: nat)
    requires |rows| == |costs|
    requires Explore(todo, rows, costs, cap).found.Some? && Explore(todo, rows, costs, cap).nodes == |todo|
    ensures GreedyChoices(todo, rows, costs, Explore(todo, rows, costs, cap).found.value, cap)
    decreases |todo|
  {
    if todo != [] {
      var candidates := CandidateRanks(rows, costs, todo[0].size, cap);
      FirstCandidateWorks(todo, rows, costs, cap, candidates);
      CandidatesAreListed(rows, costs, todo[0].size, cap);
      FirstCandidateIsCheapest(todo, rows, costs, cap, candidates);
      var q := candidates[0];
      FoundIsGreedy(todo[1..], PlaceRows(rows, q, todo[0]), PlaceCost(costs, q, todo[0]), cap);
      var below := Explore(todo[1..], PlaceRows(rows, q, todo[0]), PlaceCost(costs, q, todo[0]), cap).found.value;
      assert ([q] + below)[1..] == below;
    }
  }

  // ---------------------------------------------------------------- position by position

  lemma {:induction false} FirstChoicesAt(
      todo: seq<Group>, rows: seq<nat>, costs: seq<real>, ranks: seq<nat>, cap: nat, k: nat)
    requires |rows| == |costs| && FirstChoices(todo, rows, costs, ranks, cap) && InRange(ranks, |rows|) && k <= |todo|
    ensures FirstChoices(todo[k..], RowsAfter(todo, rows, ranks, k), CostsAfter(todo, costs, ranks, k), ranks[k..], cap)
    decreases k
  {
    if k == 0 {
      assert todo[0..] == todo && ranks[0..] == ranks;
    } else {
      FirstChoicesAt(todo, rows, costs, ranks, cap, k - 1);
      assert todo[k - 1..][1..] == todo[k..] && ranks[k - 1..][1..] == ranks[k..];
    }
  }

  lemma {:induction false} GreedyChoicesAt(
      todo: seq<Group>, rows: seq<nat>, costs: seq<real>, ranks: seq<nat>, cap: nat, k: nat)
    requires |rows| == |costs| && GreedyChoices(todo, rows, costs, ranks, cap) && InRange(ranks, |rows|) && k <= |todo|
    ensures GreedyChoices(todo[k..], RowsAfter(todo, rows, ranks, k), CostsAfter(todo, costs, ranks, k), ranks[k..],
            cap)
    decreases k
  {
    if k == 0 {
      assert todo[0..] == todo && ranks[0..] == ranks;
    } else {
      GreedyChoicesAt(todo, rows, costs, ranks, cap, k - 1);
      assert todo[k - 1..][1..] == todo[k..] && ranks[k - 1..][1..] == ranks[k..];
    }
  }

  /** The rest of a placement that fits, fits after its first `k` groups. */
  lemma {:induction false} FitsFrom(todo: seq<Group>, rows: seq<nat>, ranks: seq<nat>, cap: nat, k: nat)
    requires Fits(todo, rows, ranks, cap) && InRange(ranks, |rows|) && k <= |todo|
    ensures Fits(todo[k..], RowsAfter(todo, rows, ranks, k), ranks[k..], cap)
    decreases k
  {
    if k == 0 {
      assert todo[0..] == todo && ranks[0..] == ranks;
    } else {
      FitsFrom(todo, rows, ranks, cap, k - 1);
      assert todo[k - 1..][1..] == todo[k..] && ranks[k - 1..][1..] == ranks[k..];
    }
  }

  /** Any placement that fits and agrees with the found one up to position `k` uses there the same rank or one
      that is tried after it. */
  lemma NoFitBefore(
      todo: seq<Group>, rows: seq<nat>, costs: seq<real>, ranks: seq<nat>, other: seq<nat>, cap: nat, k: nat)
    requires |rows| == |costs| && FirstChoices(todo, rows, costs, ranks, cap) && InRange(ranks, |rows|)
    requires Fits(todo, rows, other, cap) && InRange(other, |rows|) && k < |todo|
    requires forall j :: 0 <= j < k ==> other[j] == ranks[j]
    ensures !TriedBefore(CostsAfter(todo, costs, ranks, k), other[k], ranks[k])
  {
    FirstChoicesAt(todo, rows, costs, ranks, cap, k);
    FitsFrom(todo, rows, other, cap, k);
    RowsAfterAgree(todo, rows, ranks, other, k);
    HeadIsFirst(todo[k..], RowsAfter(todo, rows, ranks, k), CostsAfter(todo, costs, ranks, k), ranks[k..], other[k..],
        cap);
  }

  lemma HeadIsFirst(
      todo: seq<Group>, rows: seq<nat>, costs: seq<real>, ranks: seq<nat>, other: seq<nat>, cap: nat)
    requires todo != [] && |rows| == |costs| && FirstChoices(todo, rows, costs, ranks, cap)
             && Fits(todo, rows, other, cap)
    ensures !TriedBefore(costs, other[0], ranks[0])
  {
  }

  // ---------------------------------------------------------------- the packing by group

  /** Rows on rank `r` from the first `k` groups of the order, when group `g` is on rank `home[g]`. */
  ghost function PlacedRows(sizes: seq<nat>, order: seq<nat>, home: seq<nat>, k: nat, r: nat): nat
    requires k <= |order| && |home| == |sizes| && InRange(order, |sizes|)
  {
    if k == 0 then 0
    else PlacedRows(sizes, order, home, k - 1, r) + (if home[order[k - 1]] == r then sizes[order[k - 1]] else 0)
  }

  /** Cost on rank `r` from the first `k` groups of the order. */
  ghost function PlacedCost(costs: seq<real>, order: seq<nat>, home: seq<nat>, k: nat, r: nat): real
    requires k <= |order| && |home| == |costs| && InRange(order, |costs|)
  {
    if k == 0 then 0.0
    else PlacedCost(costs, order, home, k - 1, r) + (if home[order[k - 1]] == r then costs[order[k - 1]] else 0.0)
  }

  /** When group `order[k]` is placed, rank `a` has cost less so far than rank `b`, or as much and is lower. */
  ghost predicate Precedes(costs: seq<real>, order: seq<nat>, home: seq<nat>, k: nat, a: nat, b: nat)
    requires k <= |order| && |home| == |costs| && InRange(order, |costs|)
  {
    var ofA, ofB := PlacedCost(costs, order, home, k, a), PlacedCost(costs, order, home, k, b);
    ofA < ofB || (ofA == ofB && a < b)
  }

  ghost predicate AgreeBefore(order: seq<nat>, home: seq<nat>, other: seq<nat>, k: nat) {
    && k <= |order| && InRange(order, |home|) && |other| == |home|
    && forall j :: 0 <= j < k ==> other[order[j]] == home[order[j]]
  }

  /** Where another packing first differs from this one, it uses a rank that has cost more so far, or as much
      and is higher. */
  ghost predicate FirstOfAllPackings(
      sizes: seq<nat>, costs: seq<real>, order: seq<nat>, home: seq<nat>, numShards: nat, cap: nat)
    requires |home| == |costs| == |sizes| && InRange(order, |sizes|)
  {
    forall k: nat, other: seq<nat> ::
      k < |order| && Packs(sizes, other, numShards, cap) && AgreeBefore(order, home, other, k) ==>
        !Precedes(costs, order, home, k, other[order[k]], home[order[k]])
  }

  /** Every group is on the cheapest rank that had room for it, the lowest among equals. */
  ghost predicate PlacedGreedily(
      sizes: seq<nat>, costs: seq<real>, order: seq<nat>, home: seq<nat>, numShards: nat, cap: nat)
    requires |home| == |costs| == |sizes| && InRange(order, |sizes|)
  {
    forall k: nat, q: nat ::
      k < |order| && q < numShards && q != home[order[k]]
      && PlacedRows(sizes, order, home, k, q) + sizes[order[k]] <= cap ==>
        Precedes(costs, order, home, k, home[order[k]], q)
  }

  ghost function RanksInOrder(order: seq<nat>, home: seq<nat>): (ranks: seq<nat>)
    requires InRange(order, |home|)
    ensures |ranks| == |order| && forall k :: 0 <= k < |order| ==> ranks[k] == home[order[k]]
  {
    seq(|order|, k requires 0 <= k < |order| => home[order[k]])
  }

  /** A rank's running rows and cost are the totals of the groups placed on it. */
  lemma {:induction false} RunningTotals(
      sizes: seq<nat>, costs: seq<real>, order: seq<nat>, home: seq<nat>, n: nat, k: nat, r: nat)
    requires |home| == |costs| == |sizes| && InRange(order, |sizes|) && k <= |order| && r < n
    requires InRange(RanksInOrder(order, home), n)
    ensures RowsAfter(Ordered(sizes, costs, order), Zeros(n), RanksInOrder(order, home), k)[r]
         == PlacedRows(sizes, order, home, k, r)
    ensures CostsAfter(Ordered(sizes, costs, order), ZeroCosts(n), RanksInOrder(order, home), k)[r]
         == PlacedCost(costs, order, home, k, r)
    decreases k
  {
    if k > 0 {
      RunningTotals(sizes, costs, order, home, n, k - 1, r);
    }
  }

  lemma TriedBeforeIsPrecedes(
      sizes: seq<nat>, costs: seq<real>, order: seq<nat>, home: seq<nat>, n: nat, k: nat, a: nat, b: nat)
    requires |home| == |costs| == |sizes| && InRange(order, |sizes|) && k <= |order| && a < n && b < n
    requires InRange(RanksInOrder(order, home), n)
    ensures TriedBefore(CostsAfter(Ordered(sizes, costs, order), ZeroCosts(n), RanksInOrder(order, home), k), a, b)
            <==> Precedes(costs, order, home, k, a, b)
  {
    RunningTotals(sizes, costs, order, home, n, k, a);
    RunningTotals(sizes, costs, order, home, n, k, b);
  }

  lemma FirstAt(
      sizes: seq<nat>, costs: seq<real>, order: seq<nat>, home: seq<nat>, other: seq<nat>, n: nat, cap: nat, k: nat)
    requires |home| == |costs| == |sizes| && Perm(order, |sizes|) && InRange(order, |sizes|) && k < |order|
    requires InRange(RanksInOrder(order, home), n)
    requires FirstChoices(Ordered(sizes, costs, order), Zeros(n), ZeroCosts(n), RanksInOrder(order, home), cap)
    requires Packs(sizes, other, n, cap) && AgreeBefore(order, home, other, k)
    ensures !Precedes(costs, order, home, k, other[order[k]], home[order[k]])
  {
    var todo, ranks, others := Ordered(sizes, costs, order), RanksInOrder(order, home), RanksInOrder(order, other);
    FitsIffPacks(sizes, costs, order, others, other, n, cap);
    NoFitBefore(todo, Zeros(n), ZeroCosts(n), ranks, others, cap, k);
    TriedBeforeIsPrecedes(sizes, costs, order, home, n, k, other[order[k]], home[order[k]]);
  }

  lemma GreedyAt(
      sizes: seq<nat>, costs: seq<real>, order: seq<nat>, home: seq<nat>, n: nat, cap: nat, k: nat, q: nat)
    requires |home| == |costs| == |sizes| && InRange(order, |sizes|) && k < |order| && q < n
    requires InRange(RanksInOrder(order, home), n)
    requires GreedyChoices(Ordered(sizes, costs, order), Zeros(n), ZeroCosts(n), RanksInOrder(order, home), cap)
    requires q != home[order[k]] && PlacedRows(sizes, order, home, k, q) + sizes[order[k]] <= cap
    ensures Precedes(costs, order, home, k, home[order[k]], q)
  {
    var todo, ranks := Ordered(sizes, costs, order), RanksInOrder(order, home);
    GreedyChoicesAt(todo, Zeros(n), ZeroCosts(n), ranks, cap, k);
    assert ranks[k..][0] == ranks[k] && todo[k..][0] == todo[k];
    RunningTotals(sizes, costs, order, home, n, k, q);
    TriedBeforeIsPrecedes(sizes, costs, order, home, n, k, home[order[k]], q);
  }

  lemma FirstEverywhere(sizes: seq<nat>, costs: seq<real>, order: seq<nat>, home: seq<nat>, n: nat, cap: nat)
    requires |home| == |costs| == |sizes| && Perm(order, |sizes|) && InRange(order, |sizes|)
    requires InRange(RanksInOrder(order, home), n)
    requires FirstChoices(Ordered(sizes, costs, order), Zeros(n), ZeroCosts(n), RanksInOrder(order, home), cap)
    ensures FirstOfAllPackings(sizes, costs, order, home, n, cap)
  {
    forall k: nat, other: seq<nat> | k < |order| && Packs(sizes, other, n, cap) && AgreeBefore(order, home, other, k)
      ensures !Precedes(costs, order, home, k, other[order[k]], home[order[k]])
    {
      FirstAt(sizes, costs, order, home, other, n, cap, k);
    }
  }

  lemma GreedyEverywhere(sizes: seq<nat>, costs: seq<real>, order: seq<nat>, home: seq<nat>, n: nat, cap: nat)
    requires |home| == |costs| == |sizes| && InRange(order, |sizes|)
    requires InRange(RanksInOrder(order, home), n)
    requires GreedyChoices(Ordered(sizes, costs, order), Zeros(n), ZeroCosts(n), RanksInOrder(order, home), cap)
    ensures PlacedGreedily(sizes, costs, order, home, n, cap)
  {
    forall k: nat, q: nat |
      k < |order| && q < n && q != home[order[k]] && PlacedRows(sizes, order, home, k, q) + sizes[order[k]] <= cap
      ensures Precedes(costs, order, home, k, home[order[k]], q)
    {
      GreedyAt(sizes, costs, order, home, n, cap, k, q);
    }
  }

  lemma {:induction false} FitsInRange(todo: seq<Group>, rows: seq<nat>, ranks: seq<nat>, cap: nat)
    requires Fits(todo, rows, ranks, cap)
    ensures |ranks| == |todo| && InRange(ranks, |rows|)
    decreases |todo|
  {
    if todo != [] {
      FitsInRange(todo[1..], PlaceRows(rows, ranks[0], todo[0]), ranks[1..], cap);
      assert ranks == [ranks[0]] + ranks[1..];
    }
  }

  lemma FoundRanks(todo: seq<Group>, n: nat, cap: nat, ranks: seq<nat>)
    requires Explore(todo, Zeros(n), ZeroCosts(n), cap).found == Some(ranks)
    ensures InRange(ranks, n) && FirstChoices(todo, Zeros(n), ZeroCosts(n), ranks, cap)
    ensures Explore(todo, Zeros(n), ZeroCosts(n), cap).nodes == |todo| ==>
              GreedyChoices(todo, Zeros(n), ZeroCosts(n), ranks, cap)
  {
    ExploreSound(todo, Zeros(n), ZeroCosts(n), cap);
    FitsInRange(todo, Zeros(n), ranks, cap);
    FoundIsFirst(todo, Zeros(n), ZeroCosts(n), cap);
    if Explore(todo, Zeros(n), ZeroCosts(n), cap).nodes == |todo| {
      FoundIsGreedy(todo, Zeros(n), ZeroCosts(n), cap);
    }
  }

  /** The packing that the search finds is the first of all packings, and greedy if it took one node per group. */
  lemma FoundPacking(sizes: seq<nat>, costs: seq<real>, order: seq<nat>, home: seq<nat>, n: nat, cap: nat)
    requires |home| == |costs| == |sizes| && Perm(order, |sizes|) && InRange(order, |sizes|)
    requires
      Explore(Ordered(sizes, costs, order), Zeros(n), ZeroCosts(n), cap).found == Some(RanksInOrder(order, home))
    ensures FirstOfAllPackings(sizes, costs, order, home, n, cap)
    ensures Explore(Ordered(sizes, costs, order), Zeros(n), ZeroCosts(n), cap).nodes == |order| ==>
              PlacedGreedily(sizes, costs, order, home, n, cap)
  {
    FoundRanks(Ordered(sizes, costs, order), n, cap, RanksInOrder(order, home));
    FirstEverywhere(sizes, costs, order, home, n, cap);
    if Explore(Ordered(sizes, costs, order), Zeros(n), ZeroCosts(n), cap).nodes == |order| {
      GreedyEverywhere(sizes, costs, order, home, n, cap);
    }
  }
}
