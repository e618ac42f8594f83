/** Shard windows over the token axis of a packed call, the row pieces and row boundaries inside a
    window, and boundaries recovered from positions (arctic_platform/common/packing/windows.py). */
module Windows {
  import opened Basics
  import opened Packing

  datatype WindowError = BadShardCount | BadShardIndex | NotDivisible | UnpaddedWidth | WrongWindowWidth | NoBoundaries

  // ---------------------------------------------------------------- windows

  /** The `[start, end)` packed-token window owned by one shard. */
  function TokenWindow(paddedTokens: nat, shardCount: int, shardIndex: int): (r: Result<(nat, nat), WindowError>)
    ensures r.Ok? <==> shardCount > 0 && 0 <= shardIndex < shardCount && paddedTokens % shardCount == 0
    ensures r.Ok? ==>
              var width := paddedTokens / shardCount;
              r.value == (shardIndex * width, shardIndex * width + width) && r.value.1 <= paddedTokens
  {
    if shardCount <= 0 then Err(BadShardCount)
    else if !(0 <= shardIndex < shardCount) then Err(BadShardIndex)
    else if paddedTokens % shardCount != 0 then Err(NotDivisible)
    else
      var width := paddedTokens / shardCount;
      WindowInside(paddedTokens, shardCount, shardIndex);
      Ok((shardIndex * width, shardIndex * width + width))
  }

  lemma WindowInside(paddedTokens: nat, shardCount: nat, shardIndex: nat)
    requires shardIndex < shardCount && paddedTokens % shardCount == 0
    ensures
      var width := paddedTokens / shardCount;
      0 <= shardIndex * width && shardIndex * width + width <= shardCount * width == paddedTokens
  {
    var width := paddedTokens / shardCount;
    assert paddedTokens == shardCount * width + paddedTokens % shardCount;
    MulSucc(shardIndex, width);
    MulMonotone(width, shardIndex + 1, shardCount);
  }

  function CutColumns<T>(grid: Grid<T>, start: nat, end: nat): (cut: Grid<T>)
    requires grid.Valid() && start <= end <= grid.width
    ensures |grid.rows| == 1 ==> cut == Grid([grid.rows[0][start..end]], end - start)
  {
    Grid(seq(|grid.rows|, i requires 0 <= i < |grid.rows| => grid.rows[i][start..end]), end - start)
  }

  /** One shard's slice of a leaf. A leaf still at the unpadded width is refused, any other width passes through. */
  function TokenShard<T>(
      leaf: Leaf<T>, meta: Metadata, shardCount: int, shardIndex: int): (r: Result<Leaf<T>, WindowError>)
    requires leaf.Valid()
    ensures IsCall(leaf, meta.paddedTokens) && meta.cuSeqlens != [] ==>
              var window := TokenWindow(meta.paddedTokens, shardCount, shardIndex);
              r == if window.Ok? then Ok(AsCall(leaf.grid.rows[0][window.value.0..window.value.1]))
                  else Err(window.error)
  {
    var window := TokenWindow(meta.paddedTokens, shardCount, shardIndex);
    if window.Err? then Err(window.error)
    else if meta.cuSeqlens == [] then Err(NoBoundaries)
    else if leaf.Vector? then Ok(leaf)
    else if leaf.grid.width == meta.paddedTokens then
      Ok(Matrix(CutColumns(leaf.grid, window.value.0, window.value.1)))
    else if leaf.grid.width == meta.cuSeqlens[|meta.cuSeqlens| - 1] then Err(UnpaddedWidth)
    else Ok(leaf)
  }

  // ---------------------------------------------------------------- windows tile the call

  /** Consecutive windows that cover `[0, n)`. */
  ghost predicate Tiles(windows: seq<(nat, nat)>, n: nat) {
    && windows != [] && windows[0].0 == 0 && windows[|windows| - 1].1 == n
    && (forall i :: 0 <= i < |windows| ==> windows[i].0 <= windows[i].1 <= n)
    && (forall i, j :: 0 <= i < |windows| && j == i + 1 < |windows| ==> windows[j].0 == windows[i].1)
  }

  ghost predicate Splits(paddedTokens: nat, shardCount: nat) {
    shardCount > 0 && paddedTokens % shardCount == 0
  }

  /** The windows of all shards, in index order. */
  ghost function ShardWindows(paddedTokens: nat, shardCount: nat): (windows: seq<(nat, nat)>)
    requires Splits(paddedTokens, shardCount)
    ensures |windows| == shardCount
    ensures forall i :: 0 <= i < shardCount ==> Ok(windows[i]) == TokenWindow(paddedTokens, shardCount, i)
  {
    seq(shardCount, i requires 0 <= i < shardCount => TokenWindow(paddedTokens, shardCount, i).value)
  }

  lemma ShardWindowsTile(paddedTokens: nat, shardCount: nat)
    requires Splits(paddedTokens, shardCount)
    ensures Tiles(ShardWindows(paddedTokens, shardCount), paddedTokens)
  {
    var windows, width := ShardWindows(paddedTokens, shardCount), paddedTokens / shardCount;
    forall i | 0 <= i < shardCount
      ensures windows[i] == (i * width, i * width + width) && windows[i].1 <= paddedTokens
    {
      assert Ok(windows[i]) == TokenWindow(paddedTokens, shardCount, i);
    }
    forall i, j | 0 <= i < shardCount && j == i + 1 < shardCount
      ensures windows[j].0 == windows[i].1
    {
      MulSucc(i, width);
    }
    WindowInside(paddedTokens, shardCount, shardCount - 1);
    MulSucc(shardCount - 1, width);
  }

  function Max(a: int, b: int): int {
    if a < b then b else a
  }

  /** The part of `value[from..to]` inside the window `[start, end)`. */
  ghost function Overlap<T>(value: seq<T>, from: nat, to: nat, start: nat, end: nat): seq<T>
    requires from <= to <= |value| && start <= end <= |value|
  {
    if Least(to, end) <= Max(from, start) then [] else value[Max(from, start)..Least(to, end)]
  }

  lemma OverlapExtends<T>(value: seq<T>, from: nat, to: nat, start: nat, end: nat)
    requires from <= to <= |value| && start <= end <= |value|
    ensures value[Least(from, start)..Least(to, start)] + Overlap(value, from, to, start, end)
            == value[Least(from, end)..Least(to, end)]
  {
  }

  /** `pieces` are the overlaps of `value[from..to]` with the windows. */
  ghost predicate AreOverlaps<T>(pieces: seq<seq<T>>, value: seq<T>, from: nat, to: nat, windows: seq<(nat, nat)>)
    requires from <= to <= |value| && Tiles(windows, |value|)
  {
    |pieces| == |windows|
    && forall i :: 0 <= i < |windows| ==> pieces[i] == Overlap(value, from, to, windows[i].0, windows[i].1)
  }

  lemma {:induction false} OverlapsUpTo<T>(
      pieces: seq<seq<T>>, value: seq<T>, from: nat, to: nat, windows: seq<(nat, nat)>, k: nat)
    requires from <= to <= |value| && Tiles(windows, |value|) && AreOverlaps(pieces, value, from, to, windows)
    requires 0 < k <= |windows|
    ensures
      var end := windows[k - 1].1;
      Flatten(pieces[..k]) == value[Least(from, end)..Least(to, end)]
    decreases k
  {
    var w := windows[k - 1];
    assert pieces[..k][..k - 1] == pieces[..k - 1];
    OverlapExtends(value, from, to, w.0, w.1);
    if k > 1 {
      OverlapsUpTo(pieces, value, from, to, windows, k - 1);
      assert w.0 == windows[k - 2].1;
    } else {
      assert pieces[..0] == [] && value[Least(from, w.0)..Least(to, w.0)] == [];
    }
  }

  /** The pieces of a run of tokens over all windows join up to the run. */
  lemma OverlapsRebuild<T>(pieces: seq<seq<T>>, value: seq<T>, from: nat, to: nat, windows: seq<(nat, nat)>)
    requires from <= to <= |value| && Tiles(windows, |value|) && AreOverlaps(pieces, value, from, to, windows)
    ensures Flatten(pieces) == value[from..to]
  {
    OverlapsUpTo(pieces, value, from, to, windows, |windows|);
    assert pieces[..|windows|] == pieces;
  }

  lemma SameCall<T>(a: seq<T>, b: seq<T>)
    requires AsCall(a) == AsCall(b)
    ensures a == b
  {
    assert AsCall(a).grid.rows[0] == a && AsCall(b).grid.rows[0] == b;
  }

  lemma ShardIsOverlap<T>(value: seq<T>, meta: Metadata, shardCount: nat, i: nat, shard: seq<T>, window: (nat, nat))
    requires meta.cuSeqlens != [] && |value| == meta.paddedTokens
    requires TokenWindow(meta.paddedTokens, shardCount, i) == Ok(window)
    requires TokenShard(AsCall(value), meta, shardCount, i) == Ok(AsCall(shard))
    ensures shard == Overlap(value, 0, |value|, window.0, window.1)
  {
    assert TokenShard(AsCall(value), meta, shardCount, i) == Ok(AsCall(value[window.0..window.1]));
    SameCall(shard, value[window.0..window.1]);
  }

  lemma ShardsConcatenate<T>(value: seq<T>, meta: Metadata, shardCount: nat, shards: seq<seq<T>>)
    requires meta.cuSeqlens != [] && |value| == meta.paddedTokens
    requires Splits(meta.paddedTokens, shardCount) && |shards| == shardCount
    requires forall i :: 0 <= i < shardCount ==> TokenShard(AsCall(value), meta, shardCount, i) == Ok(AsCall(shards[i]))
    ensures Flatten(shards) == value
  {
    var windows := ShardWindows(meta.paddedTokens, shardCount);
    ShardWindowsTile(meta.paddedTokens, shardCount);
    forall i | 0 <= i < shardCount
      ensures shards[i] == Overlap(value, 0, |value|, windows[i].0, windows[i].1)
    {
      ShardIsOverlap(value, meta, shardCount, i, shards[i], windows[i]);
    }
    OverlapsRebuild(shards, value, 0, |value|, windows);
  }

  // ---------------------------------------------------------------- row pieces

  /** Boundaries ascend within the call. */
  ghost predicate ValidBoundaries(meta: Metadata) {
    && |meta.cuSeqlens| == meta.batchSize + 1
    && forall i, j :: 0 <= i <= j <= meta.batchSize ==> 0 <= meta.cuSeqlens[i] <= meta.cuSeqlens[j] <= meta.paddedTokens
  }

  lemma PackedBoundariesValid(meta: Metadata, lengths: seq<nat>, width: nat)
    requires PackMetadataOf(meta, lengths, width)
    ensures ValidBoundaries(meta) && meta.cuSeqlens[0] == 0 && meta.cuSeqlens[meta.batchSize] == Sum(lengths)
  {
    assert lengths[..|lengths|] == lengths && lengths[..0] == [];
    forall i, j | 0 <= i <= j <= |lengths|
      ensures 0 <= meta.cuSeqlens[i] <= meta.cuSeqlens[j] <= meta.paddedTokens
    {
      PrefixSumsMonotone(lengths, i, j);
      PrefixSumsMonotone(lengths, j, |lengths|);
    }
  }

  /** The piece of row `row` that the window holds of the padded call `value`. */
  ghost function RowPiece<T>(value: seq<T>, meta: Metadata, window: (nat, nat), row: nat): seq<T>
    requires ValidBoundaries(meta) && |value| == meta.paddedTokens && row < meta.batchSize
    requires window.0 <= window.1 <= |value|
  {
    Overlap(value, meta.cuSeqlens[row], meta.cuSeqlens[row + 1], window.0, window.1)
  }

  /** Cut one shard's window of the padded call `value` at the row boundaries. */
  method WindowRowPieces<T>(tokens: seq<T>, meta: Metadata, shardCount: int, shardIndex: int, ghost value: seq<T>)
    returns (r: Result<seq<seq<T>>, WindowError>)
    requires ValidBoundaries(meta)
    ensures
      var window := TokenWindow(meta.paddedTokens, shardCount, shardIndex);
      && (r.Ok? <==> window.Ok? && |tokens| == window.value.1 - window.value.0)
      && (r.Ok? ==> |r.value| == meta.batchSize)
      && (r.Ok? && |value| == meta.paddedTokens && tokens == value[window.value.0..window.value.1] ==>
            forall row :: 0 <= row < meta.batchSize ==> r.value[row] == RowPiece(value, meta, window.value, row))
  {
    var bounds := TokenWindow(meta.paddedTokens, shardCount, shardIndex);
    if bounds.Err? {
      return Err(bounds.error);
    }
    var window := bounds.value;
    if |tokens| != window.1 - window.0 {
      return Err(WrongWindowWidth);
    }
    var pieces := CutAtRows(tokens, meta, window, value);
    return Ok(pieces);
  }

  method CutAtRows<T>(tokens: seq<T>, meta: Metadata, window: (nat, nat), ghost value: seq<T>)
    returns (pieces: seq<seq<T>>)
    requires ValidBoundaries(meta) && window.0 <= window.1 <= meta.paddedTokens && |tokens| == window.1 - window.0
    ensures |pieces| == meta.batchSize
    ensures |value| == meta.paddedTokens && tokens == value[window.0..window.1] ==>
              forall row :: 0 <= row < meta.batchSize ==> pieces[row] == RowPiece(value, meta, window, row)
  {
    pieces := [];
    for row := 0 to meta.batchSize
      invariant |pieces| == row
      invariant |value| == meta.paddedTokens && tokens == value[window.0..window.1] ==>
                  forall q :: 0 <= q < row ==> pieces[q] == RowPiece(value, meta, window, q)
    {
      var overlapStart := Max(meta.cuSeqlens[row], window.0);
      var overlapEnd := Least(meta.cuSeqlens[row + 1], window.1);
      if overlapEnd <= overlapStart {
        pieces := pieces + [tokens[..0]];
        continue;
      }
      var piece := tokens[overlapStart - window.0..overlapEnd - window.0];
      if |value| == meta.paddedTokens && tokens == value[window.0..window.1] {
        SliceOfSlice(value, window.0, window.1, overlapStart - window.0, overlapEnd - window.0);
        assert piece == RowPiece(value, meta, window, row);
      }
      pieces := pieces + [piece];
    }
  }

  /** A row's pieces over all shards concatenate to the row's valid prefix. */
  lemma PiecesRebuildRow<T>(
      leaf: Grid<T>, lengths: seq<nat>, meta: Metadata, value: seq<T>, shardCount: nat, row: nat, pieces: seq<seq<T>>)
    requires leaf.Valid() && |leaf.rows| == |lengths| && PackMetadataOf(meta, lengths, leaf.width)
    requires |value| == meta.paddedTokens && ValidTokens(leaf.rows, lengths) <= value
    requires Splits(meta.paddedTokens, shardCount) && row < |lengths|
    requires ValidBoundaries(meta) && |pieces| == shardCount
    requires forall i :: 0 <= i < shardCount ==>
               pieces[i] == RowPiece(value, meta, ShardWindows(meta.paddedTokens, shardCount)[i], row)
    ensures Flatten(pieces) == leaf.rows[row][..lengths[row]]
  {
    ShardWindowsTile(meta.paddedTokens, shardCount);
    OverlapsRebuild(pieces, value, meta.cuSeqlens[row], meta.cuSeqlens[row + 1],
        ShardWindows(meta.paddedTokens, shardCount));
    RowIsSlice(leaf, lengths, meta, value, row);
  }

  lemma RowIsSlice<T>(leaf: Grid<T>, lengths: seq<nat>, meta: Metadata, value: seq<T>, row: nat)
    requires leaf.Valid() && |leaf.rows| == |lengths| && PackMetadataOf(meta, lengths, leaf.width)
    requires |value| == meta.paddedTokens && ValidTokens(leaf.rows, lengths) <= value && row < |lengths|
    requires ValidBoundaries(meta)
    ensures value[meta.cuSeqlens[row]..meta.cuSeqlens[row + 1]] == leaf.rows[row][..lengths[row]]
  {
    PrefixSumsStep(lengths, row);
    RowSliceIs(leaf.rows, lengths, value, row, meta.cuSeqlens[row]);
  }

  lemma RowSliceIs<T>(rows: seq<seq<T>>, lengths: seq<nat>, value: seq<T>, row: nat, start: nat)
    requires |rows| == |lengths| && forall r :: 0 <= r < |rows| ==> lengths[r] <= |rows[r]|
    requires ValidTokens(rows, lengths) <= value && row < |lengths|
    requires start == Sum(lengths[..row]) && start + lengths[row] <= |value|
    ensures value[start..start + lengths[row]] == rows[row][..lengths[row]]
  {
    var prefix := rows[row][..lengths[row]];
    forall k | 0 <= k < |prefix|
      ensures value[start + k] == prefix[k]
    {
      PrefixTokenAt(rows, lengths, value, row, k);
    }
    SliceIs(value, start, prefix);
  }

  lemma SliceIs<T>(value: seq<T>, start: nat, part: seq<T>)
    requires start + |part| <= |value| && forall k :: 0 <= k < |part| ==> value[start + k] == part[k]
    ensures value[start..start + |part|] == part
  {
  }

  lemma PrefixTokenAt<T>(rows: seq<seq<T>>, lengths: seq<nat>, value: seq<T>, row: nat, k: nat)
    requires |rows| == |lengths| && forall r :: 0 <= r < |rows| ==> lengths[r] <= |rows[r]|
    requires ValidTokens(rows, lengths) <= value && row < |lengths| && k < lengths[row]
    ensures
      var t := PrefixSums(lengths)[row] + k;
      0 <= t < |value| && value[t] == rows[row][k]
  {
    ValidTokensAt(rows, lengths, row, k);
  }

  /** The row joined from its pieces over all shards, with pads appended, is the row that unpacking the
      whole call restores. */
  lemma PiecesAgreeWithUnpack<T>(
      leaf: Grid<T>, lengths: seq<nat>, meta: Metadata, value: seq<T>, shardCount: nat, row: nat, pieces: seq<seq<T>>,
      rows: seq<seq<T>>, pad: T)
    requires leaf.Valid() && |leaf.rows| == |lengths| && PackMetadataOf(meta, lengths, leaf.width)
    requires |value| == meta.paddedTokens && ValidTokens(leaf.rows, lengths) <= value
    requires Splits(meta.paddedTokens, shardCount) && row < |lengths|
    requires ValidBoundaries(meta) && |pieces| == shardCount
    requires forall i :: 0 <= i < shardCount ==>
               pieces[i] == RowPiece(value, meta, ShardWindows(meta.paddedTokens, shardCount)[i], row)
    requires RestoresRows(rows, value, lengths, leaf.width, pad)
    ensures Flatten(pieces) == leaf.rows[row][..lengths[row]]
    ensures rows[row] == Flatten(pieces) + Repeat(pad, leaf.width - lengths[row])
  {
    PiecesRebuildRow(leaf, lengths, meta, value, shardCount, row, pieces);
    RestoredRowIs(leaf, lengths, value, rows, pad, row);
  }

  lemma RestoredRowIs<T>(leaf: Grid<T>, lengths: seq<nat>, value: seq<T>, rows: seq<seq<T>>, pad: T, row: nat)
    requires leaf.Valid() && |leaf.rows| == |lengths| && Fit(lengths, leaf.width) && row < |lengths|
    requires ValidTokens(leaf.rows, lengths) <= value && RestoresRows(rows, value, lengths, leaf.width, pad)
    ensures rows[row] == leaf.rows[row][..lengths[row]] + Repeat(pad, leaf.width - lengths[row])
  {
    assert RestoredRow(rows[row], value, lengths, pad, row, leaf.width);
    var expected := leaf.rows[row][..lengths[row]] + Repeat(pad, leaf.width - lengths[row]);
    forall c | 0 <= c < leaf.width
      ensures rows[row][c] == expected[c]
    {
      PackUnpackRoundTrip(leaf, lengths, value, rows, pad, row, c);
    }
  }

  // ---------------------------------------------------------------- row reductions over windows

  function Clamp(x: int, low: int, high: int): int {
    Least(Max(x, low), high)
  }

  /** Where row `row`'s segment ends in the padded call: the last row takes the tail padding. */
  ghost function SegmentEnd(meta: Metadata, row: nat): int
    requires |meta.cuSeqlens| == meta.batchSize + 1 && row < meta.batchSize
  {
    if row + 1 == meta.batchSize then meta.paddedTokens else meta.cuSeqlens[row + 1]
  }

  /** One ascending segment per row that covers the window, each the row's part of the window. */
  ghost predicate WindowSegments(b: seq<int>, meta: Metadata, window: (nat, nat))
    requires |meta.cuSeqlens| == meta.batchSize + 1
  {
    && |b| == meta.batchSize + 1 && b[0] == 0 && b[meta.batchSize] == window.1 - window.0
    && (forall i, j :: 0 <= i <= j <= meta.batchSize ==> 0 <= b[i] <= b[j] <= window.1 - window.0)
    && (forall row :: 0 <= row < meta.batchSize ==> IsSegment(b, meta, window, row))
  }

  ghost predicate IsSegment(b: seq<int>, meta: Metadata, window: (nat, nat), row: nat)
    requires |b| == |meta.cuSeqlens| == meta.batchSize + 1 && row < meta.batchSize
  {
    && b[row] == Clamp(meta.cuSeqlens[row], window.0, window.1) - window.0
    && b[row + 1] == Clamp(SegmentEnd(meta, row), window.0, window.1) - window.0
  }

  /** Boundaries of a call with tokens only where it has rows, counted from 0. */
  ghost predicate StartsAtZero(meta: Metadata) {
    ValidBoundaries(meta) && meta.cuSeqlens[0] == 0 && (meta.batchSize == 0 ==> meta.paddedTokens == 0)
  }

  /** `b` are the boundaries clamped into the window and counted from its start, the last one at its end. */
  ghost predicate ClampedBoundaries(b: seq<int>, cu: seq<int>, window: (nat, nat)) {
    && |b| == |cu| > 0 && b[|b| - 1] == window.1 - window.0
    && forall i :: 0 <= i < |b| - 1 ==> b[i] == Clamp(cu[i], window.0, window.1) - window.0
  }

  lemma ClampedAreSegments(b: seq<int>, meta: Metadata, window: (nat, nat))
    requires StartsAtZero(meta) && window.0 <= window.1 <= meta.paddedTokens
             && ClampedBoundaries(b, meta.cuSeqlens, window)
    ensures WindowSegments(b, meta, window)
  {
    forall row | 0 <= row < meta.batchSize
      ensures IsSegment(b, meta, window, row)
    {
    }
  }

  /** Varlen boundaries of one window: one segment per packed row, tail padding in the last. */
  method WindowCuSeqlens(meta: Metadata, shardCount: int, shardIndex: int) returns (r: Result<seq<int>, WindowError>)
    ensures
      var window := TokenWindow(meta.paddedTokens, shardCount, shardIndex);
      && (r.Ok? <==> window.Ok? && meta.cuSeqlens != [])
      && (r.Ok? ==> ClampedBoundaries(r.value, meta.cuSeqlens, window.value))
      && (r.Ok? && StartsAtZero(meta) ==> WindowSegments(r.value, meta, window.value))
  {
    var bounds := TokenWindow(meta.paddedTokens, shardCount, shardIndex);
    if bounds.Err? {
      return Err(bounds.error);
    }
    var n, window := |meta.cuSeqlens|, bounds.value;
    if n == 0 {
      return Err(NoBoundaries);
    }
    var boundaries := seq(n, i requires 0 <= i < n => Clamp(meta.cuSeqlens[i], window.0, window.1) - window.0);
    boundaries := boundaries[n - 1 := window.1 - window.0];
    if StartsAtZero(meta) {
      ClampedAreSegments(boundaries, meta, window);
    }
    return Ok(boundaries);
  }

  /** One row's tokens inside one window, cut by the window's boundaries. */
  ghost function Segment(weights: seq<int>, meta: Metadata, window: (nat, nat), b: seq<int>, row: nat): seq<int>
    requires |meta.cuSeqlens| == meta.batchSize + 1 && WindowSegments(b, meta, window) && row < meta.batchSize
    requires window.0 <= window.1 <= |weights|
  {
    weights[window.0..window.1][b[row]..b[row + 1]]
  }

  lemma SegmentIsOverlap(weights: seq<int>, meta: Metadata, window: (nat, nat), b: seq<int>, row: nat)
    requires ValidBoundaries(meta) && WindowSegments(b, meta, window) && row < meta.batchSize
    requires |weights| == meta.paddedTokens && window.0 <= window.1 <= |weights|
    ensures Segment(weights, meta, window, b, row)
         == Overlap(weights, meta.cuSeqlens[row], SegmentEnd(meta, row), window.0, window.1)
  {
    assert IsSegment(b, meta, window, row);
    var from, to := Clamp(meta.cuSeqlens[row], window.0, window.1), Clamp(SegmentEnd(meta, row), window.0, window.1);
    SliceOfSlice(weights, window.0, window.1, from - window.0, to - window.0);
  }

  lemma SliceOfSlice<T>(s: seq<T>, start: nat, end: nat, i: nat, j: nat)
    requires start <= end <= |s| && i <= j <= end - start
    ensures s[start..end][i..j] == s[start + i..start + j]
  {
    var slice, direct := s[start..end][i..j], s[start + i..start + j];
    assert |slice| == |direct| && forall k :: 0 <= k < j - i ==> slice[k] == direct[k];
  }

  lemma {:induction false} SumFlatten(parts: seq<seq<int>>, sums: seq<int>)
    requires |parts| == |sums| && forall i :: 0 <= i < |parts| ==> sums[i] == Sum(parts[i])
    ensures Sum(Flatten(parts)) == Sum(sums)
    decreases |parts|
  {
    if parts != [] {
      var k := |parts| - 1;
      SumFlatten(parts[..k], sums[..k]);
      SumAppend(Flatten(parts[..k]), parts[k]);
    }
  }

  /** With weightless padding, a row's segment sums over all shards add up to the row's sum. */
  lemma SegmentSumsAreExact(
      weights: seq<int>, lengths: seq<nat>, meta: Metadata, shardCount: nat, row: nat, bs: seq<seq<int>>,
      segments: seq<seq<int>>, sums: seq<int>)
    requires PackMetadataOf(meta, lengths, meta.sequenceLength) && ValidBoundaries(meta) && row < meta.batchSize
    requires Splits(meta.paddedTokens, shardCount) && |bs| == |segments| == |sums| == shardCount
    requires |weights| == meta.paddedTokens && forall t :: Sum(lengths) <= t < |weights| ==> weights[t] == 0
    requires forall i :: 0 <= i < shardCount ==>
               var window := ShardWindows(meta.paddedTokens, shardCount)[i];
               && window.0 <= window.1 <= |weights| && WindowSegments(bs[i], meta, window)
               && segments[i] == Segment(weights, meta, window, bs[i], row)
    requires forall i :: 0 <= i < shardCount ==> sums[i] == Sum(segments[i])
    ensures Sum(sums) == Sum(weights[meta.cuSeqlens[row]..meta.cuSeqlens[row + 1]])
  {
    var windows := ShardWindows(meta.paddedTokens, shardCount);
    var from, to := meta.cuSeqlens[row], SegmentEnd(meta, row);
    ShardWindowsTile(meta.paddedTokens, shardCount);
    forall i | 0 <= i < shardCount
      ensures segments[i] == Overlap(weights, from, to, windows[i].0, windows[i].1)
    {
      SegmentIsOverlap(weights, meta, windows[i], bs[i], row);
    }
    SumFlatten(segments, sums);
    OverlapsRebuild(segments, weights, from, to, windows);
    PadWeighsNothing(weights, lengths, meta, row);
  }

  lemma PadWeighsNothing(weights: seq<int>, lengths: seq<nat>, meta: Metadata, row: nat)
    requires PackMetadataOf(meta, lengths, meta.sequenceLength) && ValidBoundaries(meta) && row < meta.batchSize
    requires |weights| == meta.paddedTokens && forall t :: Sum(lengths) <= t < |weights| ==> weights[t] == 0
    ensures Sum(weights[meta.cuSeqlens[row]..SegmentEnd(meta, row)])
            == Sum(weights[meta.cuSeqlens[row]..meta.cuSeqlens[row + 1]])
  {
    var from, end, to := meta.cuSeqlens[row], meta.cuSeqlens[row + 1], SegmentEnd(meta, row);
    if row + 1 == meta.batchSize {
      PackedBoundariesValid(meta, lengths, meta.sequenceLength);
      assert weights[from..to] == weights[from..end] + weights[end..to];
      SumAppend(weights[from..end], weights[end..to]);
      SumConstant(weights[end..to], 0);
    }
  }

  // ---------------------------------------------------------------- boundaries from positions

  /** Positions as packing writes them: every row counts from 0. */
  ghost function RowPositions(lengths: seq<nat>): seq<int> {
    if lengths == [] then [] else RowPositions(lengths[..|lengths| - 1]) + Range(lengths[|lengths| - 1])
  }

  /** Length of every segment that ends before some 0 after the first token. */
  function ClosedSegments(flat: seq<int>): seq<int> {
    if |flat| <= 1 then []
    else
      var k := |flat| - 1;
      ClosedSegments(flat[..k]) + (if flat[k] == 0 then [flat[k - 1] + 1] else [])
  }

  /** Running totals, as `torch.cumsum`. */
  function CumulativeSums(s: seq<int>): (c: seq<int>)
    ensures |c| == |s| && forall i :: 0 <= i < |s| ==> c[i] == Sum(s[..i + 1])
  {
    seq(|s|, i requires 0 <= i < |s| => Sum(s[..i + 1]))
  }

  /** A segment closes before every 0 but the first token's, and at the end; the totals are the boundaries. */
  function CuSeqlensFromPositions(flat: seq<int>): seq<int> {
    if flat == [] then [0]
    else CumulativeSums([flat[0]] + ClosedSegments(flat) + [flat[|flat| - 1] + 1])
  }

  function Positive(lengths: seq<nat>): (kept: seq<nat>)
    ensures |kept| <= |lengths|
    ensures |kept| == |lengths| <==> forall i :: 0 <= i < |lengths| ==> lengths[i] > 0
  {
    if lengths == [] then []
    else
      var k := |lengths| - 1;
      Positive(lengths[..k]) + (if lengths[k] > 0 then [lengths[k]] else [])
  }

  lemma {:induction false} ClosedSegmentsRun(prior: seq<int>, n: nat)
    requires prior != [] && n > 0
    ensures ClosedSegments(prior + Range(n)) == ClosedSegments(prior) + [prior[|prior| - 1] + 1]
    decreases n
  {
    var all := prior + Range(n);
    var k := |all| - 1;
    assert all[..k] == prior + Range(n - 1);
    if n == 1 {
      assert all[..k] == prior;
    } else {
      ClosedSegmentsRun(prior, n - 1);
    }
  }

  lemma {:induction false} ClosedSegmentsFirst(n: nat)
    ensures ClosedSegments(Range(n)) == []
    decreases n
  {
    if n > 1 {
      assert Range(n)[..n - 1] == Range(n - 1);
      ClosedSegmentsFirst(n - 1);
    }
  }

  /** The segments read from the positions are exactly the non-empty rows. */
  lemma {:induction false} SegmentsAreRows(lengths: seq<nat>)
    ensures ReadsRows(RowPositions(lengths), Positive(lengths))
    decreases |lengths|
  {
    if lengths != [] {
      var k := |lengths| - 1;
      SegmentsAreRows(lengths[..k]);
      NextRow(RowPositions(lengths[..k]), Positive(lengths[..k]), lengths[k]);
    }
  }

  ghost predicate ReadsRows(flat: seq<int>, rows: seq<nat>) {
    && (flat == [] <==> rows == [])
    && (flat != [] ==> flat[0] == 0 && ClosedSegments(flat) + [flat[|flat| - 1] + 1] == rows)
  }

  lemma NextRow(flat: seq<int>, rows: seq<nat>, n: nat)
    requires ReadsRows(flat, rows)
    ensures ReadsRows(flat + Range(n), rows + if n > 0 then [n] else [])
  {
    if n == 0 {
      assert flat + Range(0) == flat && rows + [] == rows;
    } else if flat == [] {
      assert flat + Range(n) == Range(n) && rows + [n] == [n];
      ClosedSegmentsFirst(n);
    } else {
      ClosedSegmentsRun(flat, n);
    }
  }

  lemma CumulativeIsPrefix(rows: seq<int>)
    ensures CumulativeSums([0] + rows) == PrefixSums(rows)
  {
    forall i | 0 <= i <= |rows|
      ensures CumulativeSums([0] + rows)[i] == PrefixSums(rows)[i]
    {
      assert ([0] + rows)[..i + 1] == [0] + rows[..i];
      SumAppend([0], rows[..i]);
      SumOne(0);
    }
  }

  /** Positions that count every row's valid tokens from 0. */
  ghost predicate CountFromZero(positions: Grid<int>, lengths: seq<nat>) {
    && positions.Valid() && |positions.rows| == |lengths| && Fit(lengths, positions.width)
    && forall r, k :: 0 <= r < |lengths| && 0 <= k < lengths[r] ==> positions.rows[r][k] == k
  }

  /** Packing such positions writes each row's count, one row after the other. */
  lemma {:induction false} PackedPositions(rows: seq<seq<int>>, lengths: seq<nat>)
    requires |rows| == |lengths| && forall r :: 0 <= r < |rows| ==> lengths[r] <= |rows[r]|
    requires forall r, k :: 0 <= r < |lengths| && 0 <= k < lengths[r] ==> rows[r][k] == k
    ensures ValidTokens(rows, lengths) == RowPositions(lengths)
    decreases |rows|
  {
    if rows != [] {
      var n := |rows| - 1;
      PackedPositions(rows[..n], lengths[..n]);
      assert rows[n][..lengths[n]] == Range(lengths[n]);
    }
  }

  lemma PositionsGiveNonEmptyRows(lengths: seq<nat>)
    ensures CuSeqlensFromPositions(RowPositions(lengths)) == PrefixSums(Positive(lengths))
  {
    SegmentsAreRows(lengths);
    ReadRowsGiveBoundaries(RowPositions(lengths), Positive(lengths));
  }

  lemma ReadRowsGiveBoundaries(flat: seq<int>, rows: seq<nat>)
    requires ReadsRows(flat, rows)
    ensures CuSeqlensFromPositions(flat) == PrefixSums(rows)
  {
    if flat == [] {
      assert PrefixSums(rows) == [0];
    } else {
      var closed, last := ClosedSegments(flat), [flat[|flat| - 1] + 1];
      assert [flat[0]] + closed + last == [0] + (closed + last);
      CumulativeIsPrefix(rows);
    }
  }

  /** One single-token row per pad token. */
  function PadRows(pads: nat): (s: seq<nat>)
    ensures |s| == pads && forall i :: 0 <= i < pads ==> s[i] == 1
  {
    Repeat(1, pads)
  }

  lemma {:induction false} PadPositionsAreRows(lengths: seq<nat>, pads: nat)
    ensures RowPositions(lengths + PadRows(pads)) == RowPositions(lengths) + Repeat(0, pads)
    decreases pads
  {
    var all := lengths + PadRows(pads);
    if pads == 0 {
      assert all == lengths;
    } else {
      PadPositionsAreRows(lengths, pads - 1);
      assert all[..|all| - 1] == lengths + PadRows(pads - 1) && all[|all| - 1] == 1;
      assert Range(1) == [0];
      assert RowPositions(all) == (RowPositions(lengths) + Repeat(0, pads - 1)) + Range(1);
    }
  }

  /** Positions of a padded call give back the row boundaries and one more per pad token, iff no row is empty. */
  lemma PositionsRecoverBoundaries(lengths: seq<nat>, pads: nat)
    ensures
      var read := CuSeqlensFromPositions(RowPositions(lengths) + Repeat(0, pads));
      read == PrefixSums(lengths + PadRows(pads)) <==> forall r :: 0 <= r < |lengths| ==> lengths[r] > 0
  {
    PadPositionsAreRows(lengths, pads);
    PositionsGiveNonEmptyRows(lengths + PadRows(pads));
    NoneLostIff(lengths, pads);
  }

  lemma NoneLostIff(lengths: seq<nat>, pads: nat)
    ensures PrefixSums(Positive(lengths + PadRows(pads))) == PrefixSums(lengths + PadRows(pads))
            <==> forall r :: 0 <= r < |lengths| ==> lengths[r] > 0
  {
    var all := lengths + PadRows(pads);
    if r :| 0 <= r < |lengths| && lengths[r] == 0 {
      assert all[r] == 0;
      EmptyRowIsLost(all, r);
    } else {
      AllPositive(all);
    }
  }

  /** An empty row has no position to be read from. */
  lemma EmptyRowIsLost(lengths: seq<nat>, r: nat)
    requires r < |lengths| && lengths[r] == 0
    ensures PrefixSums(Positive(lengths)) != PrefixSums(lengths)
  {
    assert |PrefixSums(Positive(lengths))| == |Positive(lengths)| + 1 < |PrefixSums(lengths)|;
  }

  lemma {:induction false} AllPositive(lengths: seq<nat>)
    requires forall i :: 0 <= i < |lengths| ==> lengths[i] > 0
    ensures Positive(lengths) == lengths
    decreases |lengths|
  {
    if lengths != [] {
      AllPositive(lengths[..|lengths| - 1]);
    }
  }

  /** The boundaries after the rows step by one per pad token. */
  lemma PadBoundaries(lengths: seq<nat>, pads: nat, p: nat)
    requires p <= pads
    ensures PrefixSums(lengths + PadRows(pads))[|lengths| + p] == Sum(lengths) + p
    ensures forall i :: 0 <= i <= |lengths| ==> PrefixSums(lengths + PadRows(pads))[i] == PrefixSums(lengths)[i]
  {
    var all := lengths + PadRows(pads);
    var ones := PadRows(p);
    assert all[..|lengths| + p] == lengths + ones;
    SumAppend(lengths, ones);
    SumConstant(ones, 1);
    forall i | 0 <= i <= |lengths|
      ensures PrefixSums(all)[i] == PrefixSums(lengths)[i]
    {
      assert all[..i] == lengths[..i];
    }
  }
}
