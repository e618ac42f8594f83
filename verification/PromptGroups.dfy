/** Grouping rows by prompt, splitting large groups, and their deduplicated token cost
    (arctic_platform/common/utils/balanced_batch.py, _id_groups, prompt_groups,
    _split_groups_to_max_length, linear_dedup_costs). */
module PromptGroups {
  import opened Basics

  datatype PromptError = ResponseOutsideWidth | TokenBudgetTooSmall | PromptOutsideWidth | RowIndexError | MaskNotMatrix

  /** A 2-D integer tensor. */
  datatype Tensor2 = Tensor2(width: nat, rows: seq<seq<int>>) {
    ghost predicate Valid() {
      forall r :: 0 <= r < |rows| ==> |rows[r]| == width
    }
  }

  // ---------------------------------------------------------------- grouping by key

  /** Rows below `n` that carry `key`, ascending. */
  ghost function RowsWith<K>(keys: seq<K>, key: K, n: nat): seq<nat>
    requires n <= |keys|
  {
    if n == 0 then [] else RowsWith(keys, key, n - 1) + (if keys[n - 1] == key then [n - 1] else [])
  }

  /** The distinct keys of the first `n` rows in first-seen order. */
  ghost function FirstSeen<K>(keys: seq<K>, n: nat): seq<K>
    requires n <= |keys|
  {
    if n == 0 then []
    else
      var prior := FirstSeen(keys, n - 1);
      if keys[n - 1] in prior then prior else prior + [keys[n - 1]]
  }

  ghost function GroupsOf<K>(keys: seq<K>, n: nat): (groups: seq<seq<nat>>)
    requires n <= |keys|
    ensures |groups| == |FirstSeen(keys, n)|
  {
    var seen := FirstSeen(keys, n);
    seq(|seen|, g requires 0 <= g < |seen| => RowsWith(keys, seen[g], n))
  }

  lemma {:induction false} FirstSeenMember<K>(keys: seq<K>, n: nat)
    requires n <= |keys|
    ensures Distinct(FirstSeen(keys, n))
    ensures forall r :: 0 <= r < n ==> keys[r] in FirstSeen(keys, n)
    decreases n
  {
    if n > 0 {
      FirstSeenMember(keys, n - 1);
    }
  }

  lemma {:induction false} RowsWithContent<K>(keys: seq<K>, key: K, n: nat)
    requires n <= |keys|
    ensures forall r :: r in RowsWith(keys, key, n) <==> 0 <= r < n && keys[r] == key
    ensures forall i, j :: 0 <= i < j < |RowsWith(keys, key, n)| ==>
            RowsWith(keys, key, n)[i] < RowsWith(keys, key, n)[j]
    decreases n
  {
    if n > 0 {
      RowsWithContent(keys, key, n - 1);
      var prior := RowsWith(keys, key, n - 1);
      assert forall i :: 0 <= i < |prior| ==> prior[i] in prior;
    }
  }

  lemma {:induction false} UnseenHasNoRows<K>(keys: seq<K>, key: K, n: nat)
    requires n <= |keys| && key !in FirstSeen(keys, n)
    ensures RowsWith(keys, key, n) == []
    decreases n
  {
    if n > 0 {
      UnseenHasNoRows(keys, key, n - 1);
    }
  }

  /** A key never seen before opens a group; a seen key extends its own group and no other. */
  lemma GroupsOfStep<K>(keys: seq<K>, n: nat)
    requires n < |keys|
    ensures keys[n] !in FirstSeen(keys, n) ==> GroupsOf(keys, n + 1) == GroupsOf(keys, n) + [[n]]
    ensures forall g :: 0 <= g < |FirstSeen(keys, n)| && FirstSeen(keys, n)[g] == keys[n] ==>
              GroupsOf(keys, n + 1) == GroupsOf(keys, n)[g := GroupsOf(keys, n)[g] + [n]]
  {
    FirstSeenMember(keys, n);
    var seen, groups, next := FirstSeen(keys, n), GroupsOf(keys, n), GroupsOf(keys, n + 1);
    if keys[n] !in seen {
      UnseenHasNoRows(keys, keys[n], n);
      assert FirstSeen(keys, n + 1) == seen + [keys[n]];
      assert forall h :: 0 <= h < |seen| ==> next[h] == RowsWith(keys, seen[h], n + 1) == groups[h];
      assert next[|seen|] == [n];
      assert next == groups + [[n]];
    } else {
      forall g | 0 <= g < |seen| && seen[g] == keys[n]
        ensures next == groups[g := groups[g] + [n]]
      {
        assert forall h :: 0 <= h < |seen| && h != g ==> seen[h] != keys[n];
        assert forall h :: 0 <= h < |seen| ==> next[h] == groups[g := groups[g] + [n]][h];
      }
    }
  }

  /** The group that row `n` joins, or the number of groups when it opens one. */
  lemma GroupsOfStepAt<K>(keys: seq<K>, n: nat) returns (g: nat)
    requires n < |keys|
    ensures g <= |GroupsOf(keys, n)|
    ensures GroupsOf(keys, n + 1) == if g == |GroupsOf(keys, n)| then GroupsOf(keys, n) + [[n]]
                                     else GroupsOf(keys, n)[g := GroupsOf(keys, n)[g] + [n]]
  {
    GroupsOfStep(keys, n);
    if keys[n] in FirstSeen(keys, n) {
      g :| 0 <= g < |FirstSeen(keys, n)| && FirstSeen(keys, n)[g] == keys[n];
    } else {
      g := |GroupsOf(keys, n)|;
    }
  }

  lemma RowJoins(groups: seq<seq<nat>>, next: seq<seq<nat>>, g: nat, k: nat)
    requires Perm(Flatten(groups), k) && g <= |groups|
    requires next == if g == |groups| then groups + [[k]] else groups[g := groups[g] + [k]]
    requires forall h :: 0 <= h < |groups| ==> groups[h] != []
    ensures Perm(Flatten(next), k + 1)
    ensures forall h :: 0 <= h < |next| ==> next[h] != []
  {
    if g == |groups| {
      FlattenOpenOne(groups, k);
    } else {
      FlattenGrowOne(groups, g, k);
    }
    NextIsPerm(Flatten(groups), Flatten(next), k);
  }

  lemma NextIsPerm(rows: seq<nat>, next: seq<nat>, k: nat)
    requires Perm(rows, k) && multiset(next) == multiset(rows) + multiset{k}
    ensures Perm(next, k + 1)
  {
    RangeNext(k);
  }

  /** The groups partition the rows, whatever the keys are. */
  lemma {:induction false} GroupsPartition<K>(keys: seq<K>, n: nat)
    requires n <= |keys|
    ensures Perm(Flatten(GroupsOf(keys, n)), n)
    ensures forall g :: 0 <= g < |GroupsOf(keys, n)| ==> GroupsOf(keys, n)[g] != []
    decreases n
  {
    if n > 0 {
      var k := n - 1;
      GroupsPartition(keys, k);
      var g := GroupsOfStepAt(keys, k);
      RowJoins(GroupsOf(keys, k), GroupsOf(keys, n), g, k);
    }
  }

  /** Two rows share a group iff they carry the same key. */
  lemma SameGroupIffSameKey<K>(keys: seq<K>, g: nat, h: nat, x: nat, y: nat)
    requires g < |GroupsOf(keys, |keys|)| && h < |GroupsOf(keys, |keys|)|
    requires x in GroupsOf(keys, |keys|)[g] && y in GroupsOf(keys, |keys|)[h]
    ensures x < |keys| && y < |keys|
    ensures keys[x] == keys[y] <==> g == h
  {
    var seen := FirstSeen(keys, |keys|);
    RowsWithContent(keys, seen[g], |keys|);
    RowsWithContent(keys, seen[h], |keys|);
    FirstSeenMember(keys, |keys|);
  }

  ghost predicate InFirstRowOrder(groups: seq<seq<nat>>) {
    && (forall g, i, j :: 0 <= g < |groups| && 0 <= i < j < |groups[g]| ==> groups[g][i] < groups[g][j])
    && (forall g, h :: 0 <= g < h < |groups| && groups[g] != [] && groups[h] != [] ==> groups[g][0] < groups[h][0])
  }

  ghost predicate AllBelow(groups: seq<seq<nat>>, n: nat) {
    forall g, i :: 0 <= g < |groups| && 0 <= i < |groups[g]| ==> groups[g][i] < n
  }

  /** Rows ascend in every group, and the groups come in the order of their first rows. */
  lemma {:induction false} GroupsInOrder<K>(keys: seq<K>, n: nat)
    requires n <= |keys|
    ensures InFirstRowOrder(GroupsOf(keys, n)) && AllBelow(GroupsOf(keys, n), n) && NoneEmpty(GroupsOf(keys, n))
    decreases n
  {
    if n > 0 {
      GroupsInOrder(keys, n - 1);
      var g := GroupsOfStepAt(keys, n - 1);
      var before, after := GroupsOf(keys, n - 1), GroupsOf(keys, n);
      RowJoinsInOrder(before, after, g, n - 1);
    }
  }

  lemma RowJoinsInOrder(groups: seq<seq<nat>>, next: seq<seq<nat>>, g: nat, k: nat)
    requires InFirstRowOrder(groups) && AllBelow(groups, k) && g <= |groups|
    requires next == if g == |groups| then groups + [[k]] else groups[g := groups[g] + [k]]
    requires NoneEmpty(groups)
    ensures InFirstRowOrder(next) && AllBelow(next, k + 1) && NoneEmpty(next)
  {
    assert forall h :: 0 <= h < |groups| && h != g ==> next[h] == groups[h];
    if g == |groups| {
      assert next[g] == [k];
    } else {
      assert next[g] == groups[g] + [k] && next[g][0] == groups[g][0];
    }
    assert AllBelow(next, k + 1);
  }

  /** The dictionary after `n` rows: each key seen, with its rows. */
  ghost predicate GroupsSoFar<K(!new)>(keys: seq<K>, grouped: map<K, seq<nat>>, n: nat)
    requires n <= |keys|
  {
    && (forall k :: k in grouped <==> k in FirstSeen(keys, n))
    && forall k :: k in grouped ==> grouped[k] == RowsWith(keys, k, n)
  }

  lemma NewKeyJoins<K(!new)>(keys: seq<K>, grouped: map<K, seq<nat>>, row: nat)
    requires row < |keys| && GroupsSoFar(keys, grouped, row) && keys[row] !in grouped
    ensures GroupsSoFar(keys, grouped[keys[row] := [row]], row + 1)
  {
    UnseenHasNoRows(keys, keys[row], row);
  }

  lemma KnownKeyJoins<K(!new)>(keys: seq<K>, grouped: map<K, seq<nat>>, row: nat)
    requires row < |keys| && GroupsSoFar(keys, grouped, row) && keys[row] in grouped
    ensures GroupsSoFar(keys, grouped[keys[row] := grouped[keys[row]] + [row]], row + 1)
  {
  }

  method GroupByKey<K(==, !new)>(keys: seq<K>) returns (groups: seq<seq<nat>>)
    ensures groups == GroupsOf(keys, |keys|)
  {
    var inserted: seq<K> := [];
    var grouped: map<K, seq<nat>> := map[];
    for row := 0 to |keys|
      invariant inserted == FirstSeen(keys, row) && GroupsSoFar(keys, grouped, row)
    {
      var key := keys[row];
      if key !in grouped {
        NewKeyJoins(keys, grouped, row);
        inserted := inserted + [key];
        grouped := grouped[key := [row]];
      } else {
        KnownKeyJoins(keys, grouped, row);
        grouped := grouped[key := grouped[key] + [row]];
      }
    }
    groups := seq(|inserted|, g requires 0 <= g < |inserted| && inserted[g] in grouped => grouped[inserted[g]]);
  }

  // ---------------------------------------------------------------- splitting

  ghost function SplitGroups(groups: seq<seq<nat>>, size: nat): seq<seq<nat>>
    requires size > 0
  {
    if groups == [] then []
    else SplitGroups(groups[..|groups| - 1], size) + Cut(groups[|groups| - 1], size)
  }

  ghost predicate AtMost(groups: seq<seq<nat>>, size: nat) {
    forall g :: 0 <= g < |groups| ==> |groups[g]| <= size
  }

  ghost predicate NoneEmpty(groups: seq<seq<nat>>) {
    forall g :: 0 <= g < |groups| ==> groups[g] != []
  }

  /** Splitting keeps every row in its place, bounds every group and empties none. */
  lemma {:induction false} SplitKeepsRows(groups: seq<seq<nat>>, size: nat)
    requires size > 0
    ensures Flatten(SplitGroups(groups, size)) == Flatten(groups)
    ensures AtMost(SplitGroups(groups, size), size)
    ensures NoneEmpty(groups) ==> NoneEmpty(SplitGroups(groups, size))
    decreases |groups|
  {
    if groups != [] {
      var k := |groups| - 1;
      SplitKeepsRows(groups[..k], size);
      CutJoins(groups[k], size);
      FlattenAppend(SplitGroups(groups[..k], size), Cut(groups[k], size));
    }
  }

  /** Chunks of the groups before group `g`. */
  ghost function ChunksBefore(groups: seq<seq<nat>>, size: nat, g: nat): nat
    requires size > 0 && g <= |groups|
  {
    if g == 0 then 0 else ChunksBefore(groups, size, g - 1) + CutCount(|groups[g - 1]|, size)
  }

  /** Chunk `c` of group `g` is its rows from `c * size` on, behind all chunks of the groups before it. */
  lemma {:induction false} ChunkOfGroup(groups: seq<seq<nat>>, size: nat, n: nat, g: nat, c: nat)
    requires size > 0 && g < n <= |groups| && c < CutCount(|groups[g]|, size)
    ensures |SplitGroups(groups[..n], size)| == ChunksBefore(groups, size, n)
    ensures ChunksBefore(groups, size, g) + c < ChunksBefore(groups, size, n)
    ensures IsRange(groups[g], size, c, SplitGroups(groups[..n], size)[ChunksBefore(groups, size, g) + c])
    decreases n
  {
    assert groups[..n][..n - 1] == groups[..n - 1];
    CutAt(groups[n - 1], size);
    SplitCount(groups, size, n - 1);
    if g < n - 1 {
      ChunkOfGroup(groups, size, n - 1, g, c);
    }
  }

  lemma {:induction false} SplitCount(groups: seq<seq<nat>>, size: nat, n: nat)
    requires size > 0 && n <= |groups|
    ensures |SplitGroups(groups[..n], size)| == ChunksBefore(groups, size, n)
    decreases n
  {
    if n > 0 {
      SplitCount(groups, size, n - 1);
      assert groups[..n][..n - 1] == groups[..n - 1];
      CutAt(groups[n - 1], size);
    }
  }

  lemma {:induction false} SmallGroupsUnsplit(groups: seq<seq<nat>>, size: nat)
    requires size > 0 && AtMost(groups, size)
    ensures SplitGroups(groups, size) == groups
    decreases |groups|
  {
    if groups != [] {
      SmallGroupsUnsplit(groups[..|groups| - 1], size);
    }
  }

  /** What the token-budget check and the group-length limit make of `groups`. */
  ghost function Limited(
      groups: seq<seq<nat>>, promptLen: nat, responseLen: nat, maxTokenLen: int, maxGroup: Option<int>):
    Result<seq<seq<nat>>, PromptError>
  {
    if groups == [] || maxGroup.None? || maxGroup.value <= 0 then Ok(groups)
    else if maxTokenLen < FullGroup(promptLen, responseLen, maxGroup.value) then Err(TokenBudgetTooSmall)
    else Ok(SplitGroups(groups, maxGroup.value))
  }

  method SplitToMaxLength(
      groups: seq<seq<nat>>, promptLen: nat, responseLen: nat, maxTokenLen: int, maxGroup: Option<int>)
    returns (r: Result<seq<seq<nat>>, PromptError>)
    ensures r == Limited(groups, promptLen, responseLen, maxTokenLen, maxGroup)
  {
    if groups == [] || maxGroup.None? || maxGroup.value <= 0 {
      return Ok(groups);
    }
    var size := maxGroup.value;
    FullGroupIs(promptLen, responseLen, size);
    if maxTokenLen < promptLen + responseLen * size {
      return Err(TokenBudgetTooSmall);
    }
    if forall g :: 0 <= g < |groups| ==> |groups[g]| <= size {
      SmallGroupsUnsplit(groups, size);
      return Ok(groups);
    }
    var split: seq<seq<nat>> := [];
    for g := 0 to |groups|
      invariant split == SplitGroups(groups[..g], size)
    {
      assert groups[..g + 1][..g] == groups[..g];
      if |groups[g]| > size {
        var start := 0;
        ghost var before := split;
        while start < |groups[g]|
          invariant 0 <= start
          invariant start < |groups[g]| ==> split + Cut(groups[g][start..], size) == before + Cut(groups[g], size)
          invariant start >= |groups[g]| ==> split == before + Cut(groups[g], size)
          decreases |groups[g]| - start
        {
          var end := if start + size <= |groups[g]| then start + size else |groups[g]|;
          ghost var rest := groups[g][start..];
          assert groups[g][start..end] == if size < |rest| then rest[..size] else rest;
          if size < |rest| {
            assert groups[g][start + size..] == rest[size..];
            assert split + Cut(rest, size) == (split + [rest[..size]]) + Cut(rest[size..], size);
          }
          split := split + [groups[g][start..end]];
          start := start + size;
        }
      } else {
        split := split + [groups[g]];
      }
    }
    assert groups[..|groups|] == groups;
    return Ok(split);
  }

  /** Each row's leading `promptLen` columns. */
  function Prompts(inputIds: Tensor2, promptLen: nat): (prompts: seq<seq<int>>)
    requires inputIds.Valid() && promptLen <= inputIds.width
    ensures |prompts| == |inputIds.rows| && forall r :: 0 <= r < |prompts| ==>
            prompts[r] == inputIds.rows[r][..promptLen]
  {
    seq(|inputIds.rows|, r requires 0 <= r < |inputIds.rows| => inputIds.rows[r][..promptLen])
  }

  /** Rows per prompt: by id when there is one id per row, by identical prompt columns otherwise. */
  ghost function RowsPerPrompt(inputIds: Tensor2, promptLen: nat, ids: Option<seq<int>>): seq<seq<nat>>
    requires inputIds.Valid() && promptLen <= inputIds.width
  {
    var n := |inputIds.rows|;
    if ids.Some? && |ids.value| == n then GroupsOf(ids.value, n) else GroupsOf(Prompts(inputIds, promptLen), n)
  }

  lemma RowsPerPromptPartition(inputIds: Tensor2, promptLen: nat, ids: Option<seq<int>>)
    requires inputIds.Valid() && promptLen <= inputIds.width
    ensures Perm(Flatten(RowsPerPrompt(inputIds, promptLen, ids)), |inputIds.rows|)
    ensures NoneEmpty(RowsPerPrompt(inputIds, promptLen, ids))
  {
    var n := |inputIds.rows|;
    if ids.Some? && |ids.value| == n {
      GroupsPartition(ids.value, n);
    } else {
      GroupsPartition(Prompts(inputIds, promptLen), n);
    }
  }

  /** Two rows go together: their ids when there is one per row, their prompt columns otherwise. */
  ghost predicate SamePrompt(inputIds: Tensor2, promptLen: nat, ids: Option<seq<int>>, x: nat, y: nat)
    requires inputIds.Valid() && promptLen <= inputIds.width && x < |inputIds.rows| && y < |inputIds.rows|
  {
    if ids.Some? && |ids.value| == |inputIds.rows| then ids.value[x] == ids.value[y]
    else inputIds.rows[x][..promptLen] == inputIds.rows[y][..promptLen]
  }

  /** Two rows are in one group iff they have the same prompt, and the groups come in first-row order. */
  lemma RowsPerPromptMeaning(
      inputIds: Tensor2, promptLen: nat, ids: Option<seq<int>>, g: nat, h: nat, x: nat, y: nat)
    requires inputIds.Valid() && promptLen <= inputIds.width
    requires g < |RowsPerPrompt(inputIds, promptLen, ids)| && h < |RowsPerPrompt(inputIds, promptLen, ids)|
    requires x in RowsPerPrompt(inputIds, promptLen, ids)[g] && y in RowsPerPrompt(inputIds, promptLen, ids)[h]
    ensures x < |inputIds.rows| && y < |inputIds.rows|
    ensures SamePrompt(inputIds, promptLen, ids, x, y) <==> g == h
    ensures InFirstRowOrder(RowsPerPrompt(inputIds, promptLen, ids))
  {
    var n := |inputIds.rows|;
    if ids.Some? && |ids.value| == n {
      SameGroupIffSameKey(ids.value, g, h, x, y);
      GroupsInOrder(ids.value, n);
    } else {
      SameGroupIffSameKey(Prompts(inputIds, promptLen), g, h, x, y);
      GroupsInOrder(Prompts(inputIds, promptLen), n);
    }
  }

  /** The groups respect the limit, and a full group of them the token budget. */
  ghost predicate GroupsInBudget(
      groups: seq<seq<nat>>, promptLen: int, responseLen: int, maxGroup: nat, maxTokenLen: int)
  {
    && AtMost(groups, maxGroup)
    && (groups != [] ==>
          promptLen >= 0 && responseLen >= 0 && FullGroup(promptLen, responseLen, maxGroup) <= maxTokenLen)
  }

  /** Limiting the groups keeps the rows in order and empties no group. */
  lemma LimitedKeepsRows(
      groups: seq<seq<nat>>, promptLen: nat, responseLen: nat, maxTokenLen: int, maxGroup: Option<int>)
    requires NoneEmpty(groups) && Limited(groups, promptLen, responseLen, maxTokenLen, maxGroup).Ok?
    ensures
      var limited := Limited(groups, promptLen, responseLen, maxTokenLen, maxGroup).value;
      Flatten(limited) == Flatten(groups) && NoneEmpty(limited)
  {
    if maxGroup.Some? && maxGroup.value > 0 {
      SplitKeepsRows(groups, maxGroup.value);
    }
  }

  lemma LimitedInBudget(groups: seq<seq<nat>>, promptLen: nat, responseLen: nat, maxTokenLen: int, maxGroup: int)
    requires maxGroup > 0 && Limited(groups, promptLen, responseLen, maxTokenLen, Some(maxGroup)).Ok?
    ensures
      var limited := Limited(groups, promptLen, responseLen, maxTokenLen, Some(maxGroup)).value;
      GroupsInBudget(limited, promptLen, responseLen, maxGroup, maxTokenLen)
  {
    SplitKeepsRows(groups, maxGroup);
  }

  /** The whole answer. */
  ghost function PromptGroupsOf(
      inputIds: Tensor2, responseLen: int, maxTokenLen: int, maxGroup: Option<int>, ids: Option<seq<int>>):
    (r: Result<seq<seq<nat>>, PromptError>)
    requires inputIds.Valid()
    ensures r.Ok? ==> 0 <= responseLen <= inputIds.width
  {
    if !(0 <= responseLen <= inputIds.width) then Err(ResponseOutsideWidth)
    else
      var promptLen := inputIds.width - responseLen;
      Limited(RowsPerPrompt(inputIds, promptLen, ids), promptLen, responseLen, maxTokenLen, maxGroup)
  }

  /** Every successful answer partitions the rows into non-empty groups. */
  lemma PromptGroupsPartition(
      inputIds: Tensor2, responseLen: int, maxTokenLen: int, maxGroup: Option<int>, ids: Option<seq<int>>)
    requires inputIds.Valid() && PromptGroupsOf(inputIds, responseLen, maxTokenLen, maxGroup, ids).Ok?
    ensures
      var groups := PromptGroupsOf(inputIds, responseLen, maxTokenLen, maxGroup, ids).value;
      Perm(Flatten(groups), |inputIds.rows|) && NoneEmpty(groups)
  {
    var promptLen := inputIds.width - responseLen;
    RowsPerPromptPartition(inputIds, promptLen, ids);
    LimitedKeepsRows(RowsPerPrompt(inputIds, promptLen, ids), promptLen, responseLen, maxTokenLen, maxGroup);
  }

  /** With a positive limit, a successful answer respects it, and a full group the token budget. */
  lemma PromptGroupsInBudget(
      inputIds: Tensor2, responseLen: int, maxTokenLen: int, maxGroup: int, ids: Option<seq<int>>)
    requires inputIds.Valid() && maxGroup > 0
    requires PromptGroupsOf(inputIds, responseLen, maxTokenLen, Some(maxGroup), ids).Ok?
    ensures
      var groups := PromptGroupsOf(inputIds, responseLen, maxTokenLen, Some(maxGroup), ids).value;
      GroupsInBudget(groups, inputIds.width - responseLen, responseLen, maxGroup, maxTokenLen)
  {
    var promptLen := inputIds.width - responseLen;
    LimitedInBudget(RowsPerPrompt(inputIds, promptLen, ids), promptLen, responseLen, maxTokenLen, maxGroup);
  }

  method GroupRows(inputIds: Tensor2, promptLen: nat, ids: Option<seq<int>>) returns (groups: seq<seq<nat>>)
    requires inputIds.Valid() && promptLen <= inputIds.width
    ensures groups == RowsPerPrompt(inputIds, promptLen, ids)
  {
    if ids.Some? && |ids.value| == |inputIds.rows| {
      groups := GroupByKey(ids.value);
    } else {
      groups := GroupByKey(Prompts(inputIds, promptLen));
    }
  }

  method PromptGroupRows(
      inputIds: Tensor2, responseLen: int, maxTokenLen: int, maxGroup: Option<int>, ids: Option<seq<int>>)
    returns (r: Result<seq<seq<nat>>, PromptError>)
    requires inputIds.Valid()
    ensures r == PromptGroupsOf(inputIds, responseLen, maxTokenLen, maxGroup, ids)
  {
    if responseLen < 0 || responseLen > inputIds.width {
      return Err(ResponseOutsideWidth);
    }
    var promptLen := inputIds.width - responseLen;
    var groups := GroupRows(inputIds, promptLen, ids);
    r := SplitToMaxLength(groups, promptLen, responseLen, maxTokenLen, maxGroup);
  }

  // ---------------------------------------------------------------- cost

  ghost predicate ZeroOne(mask: Tensor2) {
    forall r, c :: 0 <= r < |mask.rows| && 0 <= c < |mask.rows[r]| ==> 0 <= mask.rows[r][c] <= 1
  }

  function ResponseTokens(mask: Tensor2, group: seq<nat>, promptLen: nat): int
    requires mask.Valid() && promptLen <= mask.width && forall i :: 0 <= i < |group| ==> group[i] < |mask.rows|
  {
    if group == [] then 0
    else
      var k := |group| - 1;
      ResponseTokens(mask, group[..k], promptLen) + Sum(mask.rows[group[k]][promptLen..])
  }

  /** Prompt tokens of the first row, plus every row's response tokens. */
  function DedupCost(mask: Tensor2, group: seq<nat>, promptLen: nat): int
    requires mask.Valid() && promptLen <= mask.width && forall i :: 0 <= i < |group| ==> group[i] < |mask.rows|
    requires group != []
  {
    Sum(mask.rows[group[0]][..promptLen]) + ResponseTokens(mask, group, promptLen)
  }

  function RowTokens(mask: Tensor2): (tokens: seq<int>)
    ensures |tokens| == |mask.rows| && forall r :: 0 <= r < |tokens| ==> tokens[r] == Sum(mask.rows[r])
  {
    seq(|mask.rows|, r requires 0 <= r < |mask.rows| => Sum(mask.rows[r]))
  }

  lemma {:induction false} SumCountsOnes(s: seq<int>)
    requires forall i :: 0 <= i < |s| ==> 0 <= s[i] <= 1
    ensures Sum(s) == |set i | 0 <= i < |s| && s[i] == 1|
    decreases |s|
  {
    if s != [] {
      var k := |s| - 1;
      SumCountsOnes(s[..k]);
      var prior := set i | 0 <= i < |s[..k]| && s[..k][i] == 1;
      if s[k] == 1 {
        assert (set i | 0 <= i < |s| && s[i] == 1) == prior + {k};
      } else {
        assert (set i | 0 <= i < |s| && s[i] == 1) == prior;
      }
    }
  }

  /** The length of a row under an attention mask is the number of columns it keeps. */
  lemma RowTokensCount(mask: Tensor2, r: nat)
    requires ZeroOne(mask) && r < |mask.rows|
    ensures RowTokens(mask)[r] == |set c | 0 <= c < |mask.rows[r]| && mask.rows[r][c] == 1|
  {
    SumCountsOnes(mask.rows[r]);
  }

  function PromptTokens(mask: Tensor2, promptLen: nat): (tokens: seq<int>)
    requires mask.Valid() && promptLen <= mask.width
    ensures |tokens| == |mask.rows| && forall r :: 0 <= r < |tokens| ==> tokens[r] == Sum(mask.rows[r][..promptLen])
  {
    seq(|mask.rows|, r requires 0 <= r < |mask.rows| => Sum(mask.rows[r][..promptLen]))
  }

  lemma {:induction false} ResponsesAreTheRest(mask: Tensor2, group: seq<nat>, promptLen: nat)
    requires mask.Valid() && promptLen <= mask.width && forall i :: 0 <= i < |group| ==> group[i] < |mask.rows|
    ensures ResponseTokens(mask, group, promptLen) + Load(PromptTokens(mask, promptLen), group)
         == Load(RowTokens(mask), group)
    decreases |group|
  {
    if group != [] {
      var k := |group| - 1;
      ResponsesAreTheRest(mask, group[..k], promptLen);
      var row := mask.rows[group[k]];
      SumAppend(row[..promptLen], row[promptLen..]);
      assert row[..promptLen] + row[promptLen..] == row;
    }
  }

  /** Deduplication leaves out exactly the prompts of all rows but the first. */
  lemma DedupSavesPrompts(mask: Tensor2, group: seq<nat>, promptLen: nat)
    requires mask.Valid() && promptLen <= mask.width && forall i :: 0 <= i < |group| ==> group[i] < |mask.rows|
    requires group != []
    ensures DedupCost(mask, group, promptLen) + Load(PromptTokens(mask, promptLen), group[1..])
         == Load(RowTokens(mask), group)
  {
    var prompts := PromptTokens(mask, promptLen);
    ResponsesAreTheRest(mask, group, promptLen);
    assert group == [group[0]] + group[1..];
    LoadAppend(prompts, [group[0]], group[1..]);
    LoadOne(prompts, group[0]);
  }

  lemma {:induction false} ResponseBound(mask: Tensor2, group: seq<nat>, promptLen: nat)
    requires mask.Valid() && promptLen <= mask.width && forall i :: 0 <= i < |group| ==> group[i] < |mask.rows|
    requires ZeroOne(mask)
    ensures ResponseTokens(mask, group, promptLen) <= |group| * (mask.width - promptLen)
    decreases |group|
  {
    if group != [] {
      var k := |group| - 1;
      ResponseBound(mask, group[..k], promptLen);
      SumBound(mask.rows[group[k]][promptLen..], 1);
      assert |group| * (mask.width - promptLen) == k * (mask.width - promptLen) + (mask.width - promptLen);
    }
  }

  /** The tokens of a full group: its prompt once and `maxGroup` responses. */
  ghost function FullGroup(promptLen: nat, responseLen: nat, maxGroup: nat): int {
    if maxGroup == 0 then promptLen else FullGroup(promptLen, responseLen, maxGroup - 1) + responseLen
  }

  lemma {:induction false} FullGroupIs(promptLen: nat, responseLen: nat, maxGroup: nat)
    ensures FullGroup(promptLen, responseLen, maxGroup) == promptLen + responseLen * maxGroup
    decreases maxGroup
  {
    if maxGroup > 0 {
      FullGroupIs(promptLen, responseLen, maxGroup - 1);
      MulNext(responseLen, maxGroup - 1);
    }
  }

  lemma FullGroupGrows(promptLen: nat, a: nat, b: nat, maxGroup: nat)
    requires maxGroup > 0
    ensures FullGroup(promptLen, a, maxGroup) <= FullGroup(promptLen, b, maxGroup) <==> a <= b
  {
    FullGroupIs(promptLen, a, maxGroup);
    FullGroupIs(promptLen, b, maxGroup);
    if a <= b {
      MulMonotone(maxGroup, a, b);
    } else {
      MulMonotone(maxGroup, b + 1, a);
    }
  }

  /** A group of at most `maxGroup` rows costs at most the effective token length of a full group. */
  lemma CostWithinBudget(mask: Tensor2, group: seq<nat>, promptLen: nat, maxGroup: nat, maxTokenLen: int)
    requires mask.Valid() && promptLen <= mask.width && forall i :: 0 <= i < |group| ==> group[i] < |mask.rows|
    requires ZeroOne(mask) && 0 < |group| <= maxGroup
    requires FullGroup(promptLen, mask.width - promptLen, maxGroup) <= maxTokenLen
    ensures DedupCost(mask, group, promptLen) <= maxTokenLen
  {
    ResponseBound(mask, group, promptLen);
    SumBound(mask.rows[group[0]][..promptLen], 1);
    TokensWithinFullGroup(promptLen, mask.width - promptLen, |group|, maxGroup);
  }

  lemma TokensWithinFullGroup(promptLen: nat, responseLen: nat, rows: nat, maxGroup: nat)
    requires rows <= maxGroup
    ensures promptLen + rows * responseLen <= FullGroup(promptLen, responseLen, maxGroup)
  {
    FullGroupIs(promptLen, responseLen, maxGroup);
    MulMonotone(responseLen, rows, maxGroup);
  }

  /** Every row of an all-ones mask is real. */
  function AllOnes(rows: nat, width: nat): (mask: Tensor2)
    ensures mask.Valid() && mask.width == width && |mask.rows| == rows && ZeroOne(mask)
    ensures forall r :: 0 <= r < rows ==> mask.rows[r] == seq(width, _ => 1)
  {
    Tensor2(width, seq(rows, _ => seq(width, _ => 1)))
  }

  /** A group of `n` full rows costs the prompt once and `n` full responses. */
  lemma {:induction false} FullRowsCost(mask: Tensor2, group: seq<nat>, promptLen: nat)
    requires mask.Valid() && promptLen <= mask.width && forall i :: 0 <= i < |group| ==> group[i] < |mask.rows|
    requires forall r :: 0 <= r < |mask.rows| ==> mask.rows[r] == seq(mask.width, _ => 1)
    ensures ResponseTokens(mask, group, promptLen) == |group| * (mask.width - promptLen)
    ensures group != [] ==> DedupCost(mask, group, promptLen) == promptLen + |group| * (mask.width - promptLen)
    decreases |group|
  {
    if group != [] {
      var k := |group| - 1;
      FullRowsCost(mask, group[..k], promptLen);
      SumConstant(mask.rows[group[k]][promptLen..], 1);
      SumConstant(mask.rows[group[0]][..promptLen], 1);
      MulSucc(k, mask.width - promptLen);
    }
  }

  /** Some 0/1 mask of this width sends some group of at most `maxGroup` rows over the budget. */
  ghost predicate SomeGroupExceeds(width: nat, promptLen: nat, maxGroup: nat, maxTokenLen: int)
    requires promptLen <= width
  {
    exists mask: Tensor2, group: seq<nat> ::
      && mask.Valid() && mask.width == width && ZeroOne(mask)
      && 0 < |group| <= maxGroup && (forall i :: 0 <= i < |group| ==> group[i] < |mask.rows|)
      && DedupCost(mask, group, promptLen) > maxTokenLen
  }

  /** A mask of a given width keeps every group within budget, whatever its bits, exactly when a full group
      of that width is within budget. */
  lemma BudgetHoldsIff(width: nat, promptLen: nat, maxGroup: nat, maxTokenLen: int)
    requires promptLen <= width && maxGroup > 0
    ensures !SomeGroupExceeds(width, promptLen, maxGroup, maxTokenLen)
            <==> FullGroup(promptLen, width - promptLen, maxGroup) <= maxTokenLen
  {
    if FullGroup(promptLen, width - promptLen, maxGroup) <= maxTokenLen {
      forall mask: Tensor2, group: seq<nat> |
        && mask.Valid() && mask.width == width && ZeroOne(mask)
        && 0 < |group| <= maxGroup && (forall i :: 0 <= i < |group| ==> group[i] < |mask.rows|)
        ensures DedupCost(mask, group, promptLen) <= maxTokenLen
      {
        CostWithinBudget(mask, group, promptLen, maxGroup, maxTokenLen);
      }
    } else {
      var mask, group := AllOnes(maxGroup, width), Range(maxGroup);
      FullRowsCost(mask, group, promptLen);
      FullGroupIs(promptLen, width - promptLen, maxGroup);
      assert DedupCost(mask, group, promptLen) > maxTokenLen;
    }
  }

  /** The token-budget check looks at the input ids only. It bounds the cost of every group under every 0/1
      mask exactly when the mask is not wider than the input ids. */
  lemma CheckCoversMaskIff(inputWidth: nat, maskWidth: nat, promptLen: nat, maxGroup: nat)
    requires promptLen <= inputWidth && promptLen <= maskWidth && maxGroup > 0
    ensures (forall budget: int :: FullGroup(promptLen, inputWidth - promptLen, maxGroup) <= budget ==>
               !SomeGroupExceeds(maskWidth, promptLen, maxGroup, budget))
            <==> maskWidth <= inputWidth
  {
    forall budget: int
      ensures !SomeGroupExceeds(maskWidth, promptLen, maxGroup, budget)
              <==> FullGroup(promptLen, maskWidth - promptLen, maxGroup) <= budget
    {
      BudgetHoldsIff(maskWidth, promptLen, maxGroup, budget);
    }
    FullGroupGrows(promptLen, maskWidth - promptLen, inputWidth - promptLen, maxGroup);
    assert SomeGroupExceeds(maskWidth, promptLen, maxGroup, FullGroup(promptLen, inputWidth - promptLen, maxGroup))
           <==> inputWidth < maskWidth;
  }

  /** One row of width 1 that is all response is one group, and passes the check of a budget of 1. */
  lemma OneResponseRow(x: int)
    ensures Tensor2(1, [[x]]).Valid() && PromptGroupsOf(Tensor2(1, [[x]]), 1, 1, Some(1), None) == Ok([[0]])
  {
    var ids := Tensor2(1, [[x]]);
    OneRowGroups(Prompts(ids, 0));
    var groups := RowsPerPrompt(ids, 0, None);
    assert groups == [[0]];
    SmallGroupsUnsplit(groups, 1);
    FullGroupIs(0, 1, 1);
  }

  lemma OneRowGroups<K>(keys: seq<K>)
    requires |keys| == 1
    ensures GroupsOf(keys, 1) == [[0]]
  {
    assert FirstSeen(keys, 0) == [];
    GroupsOfStep(keys, 0);
    assert GroupsOf(keys, 0) == [];
  }

  /** When the group's rows share one prompt, the cost is all their tokens less the repeated prompts. */
  lemma {:induction false} CostCountsPromptOnce(mask: Tensor2, group: seq<nat>, promptLen: nat, tokens: seq<int>)
    requires mask.Valid() && promptLen <= mask.width && forall i :: 0 <= i < |group| ==> group[i] < |mask.rows|
    requires group != []
    requires forall i :: 0 <= i < |group| ==> mask.rows[group[i]][..promptLen] == mask.rows[group[0]][..promptLen]
    requires |tokens| == |mask.rows| && forall r :: 0 <= r < |tokens| ==> tokens[r] == Sum(mask.rows[r])
    ensures DedupCost(mask, group, promptLen)
         == Load(tokens, group) - (|group| - 1) * Sum(mask.rows[group[0]][..promptLen])
    decreases |group|
  {
    var k := |group| - 1;
    var row := mask.rows[group[k]];
    SumAppend(row[..promptLen], row[promptLen..]);
    assert row == row[..promptLen] + row[promptLen..];
    if k > 0 {
      CostCountsPromptOnce(mask, group[..k], promptLen, tokens);
      var prompt := Sum(mask.rows[group[0]][..promptLen]);
      assert k * prompt == (k - 1) * prompt + prompt;
    } else {
      assert group[..k] == [];
      assert ResponseTokens(mask, group, promptLen) == Sum(row[promptLen..]);
      assert Load(tokens, group) == tokens[group[0]];
      assert (|group| - 1) * Sum(mask.rows[group[0]][..promptLen]) == 0;
    }
  }

  /** Every group has a first row and only rows the mask has. */
  ghost predicate RowsInMask(mask: Tensor2, groups: seq<seq<nat>>) {
    && NoneEmpty(groups)
    && forall g, i :: 0 <= g < |groups| && 0 <= i < |groups[g]| ==> groups[g][i] < |mask.rows|
  }

  ghost function DedupCosts(mask: Tensor2, groups: seq<seq<nat>>, promptLen: nat): (costs: seq<int>)
    requires mask.Valid() && promptLen <= mask.width && RowsInMask(mask, groups)
    ensures |costs| == |groups|
  {
    seq(|groups|, g requires 0 <= g < |groups| => DedupCost(mask, groups[g], promptLen))
  }

  method LinearDedupCosts(mask: Tensor2, groups: seq<seq<nat>>, promptLen: int)
    returns (r: Result<seq<int>, PromptError>)
    requires mask.Valid()
    ensures
      if !(0 <= promptLen <= mask.width) then r == Err(PromptOutsideWidth)
      else if !RowsInMask(mask, groups) then r == Err(RowIndexError)
      else r == Ok(DedupCosts(mask, groups, promptLen))
  {
    if promptLen < 0 || promptLen > mask.width {
      return Err(PromptOutsideWidth);
    }
    var costs: seq<int> := [];
    for g := 0 to |groups|
      invariant |costs| == g
      invariant forall h :: 0 <= h < g ==>
                  && groups[h] != [] && (forall i :: 0 <= i < |groups[h]| ==> groups[h][i] < |mask.rows|)
                  && costs[h] == DedupCost(mask, groups[h], promptLen)
    {
      if groups[g] == [] {
        return Err(RowIndexError);
      }
      if exists i :: 0 <= i < |groups[g]| && groups[g][i] >= |mask.rows| {
        var i :| 0 <= i < |groups[g]| && groups[g][i] >= |mask.rows|;
        assert !RowsInMask(mask, groups);
        return Err(RowIndexError);
      }
      costs := costs + [DedupCost(mask, groups[g], promptLen)];
    }
    assert RowsInMask(mask, groups);
    assert costs == DedupCosts(mask, groups, promptLen);
    return Ok(costs);
  }
}
