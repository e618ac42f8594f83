/** The packing contract end to end: pack a left-aligned batch, pad it, cut it into shards, cut each
    shard's window at the row boundaries, and join the pieces again
    (arctic_platform/common/packing/__init__.py, the contract of its pieces in the order they are used). */
module CallRoundTrip {
  import opened Basics
  import opened Packing
  import opened Windows

  /** A padded call that holds the valid tokens of `grid` and divides into `shardCount` windows. */
  ghost predicate ReadyCall<T>(call: PackedCall<T>, grid: Grid<T>, lengths: seq<nat>, shardCount: nat) {
    && grid.Valid() && |grid.rows| == |lengths| && PackMetadataOf(call.meta, lengths, grid.width)
    && Splits(call.meta.paddedTokens, shardCount) && IsCall(call.leaf, call.meta.paddedTokens)
    && ValidTokens(grid.rows, lengths) <= call.leaf.grid.rows[0]
  }

  method PackAndPad<T>(mask: Grid<bool>, positions: Grid<int>, grid: Grid<T>, multiple: nat, padValue: T)
    returns (call: PackedCall<T>)
    requires mask.Valid() && positions.Valid() && grid.Valid() && SameShape(positions, mask) && SameShape(grid, mask)
    requires LeftAligned(mask) && multiple > 0
    ensures ReadyCall(call, grid, RowLengths(mask), multiple)
    ensures
      var pads := call.meta.paddedTokens - Sum(RowLengths(mask));
      && 0 <= pads < multiple && Fit(RowLengths(mask), mask.width)
      && call.positions == ValidTokens(positions.rows, RowLengths(mask)) + Repeat(0, pads)
  {
    var packed := PackMicrobatch(Some(mask), Some(positions), Matrix(grid));
    ValidTokensLength(grid.rows, RowLengths(mask));
    ValidTokensLength(positions.rows, RowLengths(mask));
    assert packed.value.leaf == AsCall(ValidTokens(grid.rows, RowLengths(mask)));
    call := PadPacked(packed.value, multiple, padValue).value;
  }

  /** Every shard's window, cut into row pieces. */
  method ShardPieces<T>(call: PackedCall<T>, grid: Grid<T>, ghost lengths: seq<nat>, shardCount: nat)
    returns (pieces: seq<seq<seq<T>>>)
    requires ReadyCall(call, grid, lengths, shardCount)
    ensures ValidBoundaries(call.meta) && |pieces| == shardCount
    ensures forall i :: 0 <= i < shardCount ==> |pieces[i]| == |lengths|
    ensures forall i :: 0 <= i < shardCount ==> IsShardPieces(pieces[i], call, shardCount, i)
  {
    PackedBoundariesValid(call.meta, lengths, grid.width);
    var value := call.leaf.grid.rows[0];
    pieces := [];
    for i := 0 to shardCount
      invariant |pieces| == i && forall j :: 0 <= j < i ==> |pieces[j]| == |lengths|
      invariant forall j :: 0 <= j < i ==> IsShardPieces(pieces[j], call, shardCount, j)
    {
      var shard := TokenShard(call.leaf, call.meta, shardCount, i);
      var cut := WindowRowPieces(shard.value.grid.rows[0], call.meta, shardCount, i, value);
      pieces := pieces + [cut.value];
    }
  }

  /** One piece per row: the row's part of shard `i`'s window. */
  ghost predicate IsShardPieces<T>(pieces: seq<seq<T>>, call: PackedCall<T>, shardCount: nat, i: nat)
    requires ValidBoundaries(call.meta) && IsCall(call.leaf, call.meta.paddedTokens)
    requires Splits(call.meta.paddedTokens, shardCount) && i < shardCount
  {
    var window := TokenWindow(call.meta.paddedTokens, shardCount, i).value;
    |pieces| == call.meta.batchSize
    && forall row :: 0 <= row < |pieces| ==> pieces[row] == RowPiece(call.leaf.grid.rows[0], call.meta, window, row)
  }

  /** A row's pieces from all shards, in shard order. */
  function PiecesOfRow<T>(pieces: seq<seq<seq<T>>>, row: nat): (parts: seq<seq<T>>)
    requires forall i :: 0 <= i < |pieces| ==> row < |pieces[i]|
    ensures |parts| == |pieces| && forall i :: 0 <= i < |parts| ==> parts[i] == pieces[i][row]
  {
    seq(|pieces|, i requires 0 <= i < |pieces| => pieces[i][row])
  }

  lemma RowComesBack<T>(
      call: PackedCall<T>, grid: Grid<T>, lengths: seq<nat>, shardCount: nat, pieces: seq<seq<seq<T>>>,
      unpacked: seq<seq<T>>, fill: T, row: nat)
    requires ReadyCall(call, grid, lengths, shardCount) && row < |lengths|
    requires ValidBoundaries(call.meta) && |pieces| == shardCount
    requires forall i :: 0 <= i < shardCount ==> |pieces[i]| == |lengths|
    requires forall i :: 0 <= i < shardCount ==> IsShardPieces(pieces[i], call, shardCount, i)
    requires RestoresRows(unpacked, call.leaf.grid.rows[0], lengths, grid.width, fill)
    ensures
      var rebuilt := Flatten(PiecesOfRow(pieces, row));
      && rebuilt == grid.rows[row][..lengths[row]]
      && unpacked[row] == rebuilt + Repeat(fill, grid.width - lengths[row])
  {
    var value, parts := call.leaf.grid.rows[0], PiecesOfRow(pieces, row);
    var windows := ShardWindows(call.meta.paddedTokens, shardCount);
    forall i | 0 <= i < shardCount
      ensures parts[i] == RowPiece(value, call.meta, windows[i], row)
    {
      assert IsShardPieces(pieces[i], call, shardCount, i);
      assert Ok(windows[i]) == TokenWindow(call.meta.paddedTokens, shardCount, i);
    }
    PiecesAgreeWithUnpack(grid, lengths, call.meta, value, shardCount, row, parts, unpacked, fill);
  }

  /** Pack, pad, shard, cut and join is the identity on real tokens, for every shard count, and agrees with
      unpacking the whole padded call. */
  method RestoreThroughShards<T>(
      mask: Grid<bool>, positions: Grid<int>, grid: Grid<T>, shardCount: nat, padValue: T, fill: T)
    returns (rebuilt: seq<seq<T>>, unpacked: seq<seq<T>>)
    requires mask.Valid() && positions.Valid() && grid.Valid() && SameShape(positions, mask) && SameShape(grid, mask)
    requires LeftAligned(mask) && shardCount > 0
    ensures |rebuilt| == |unpacked| == |grid.rows| == |RowLengths(mask)| && Fit(RowLengths(mask), grid.width)
    ensures forall row :: 0 <= row < |grid.rows| ==> rebuilt[row] == grid.rows[row][..RowLengths(mask)[row]]
    ensures forall row :: 0 <= row < |grid.rows| ==>
              unpacked[row] == rebuilt[row] + Repeat(fill, grid.width - RowLengths(mask)[row])
  {
    ghost var lengths := RowLengths(mask);
    var call := PackAndPad(mask, positions, grid, shardCount, padValue);
    var pieces := ShardPieces(call, grid, lengths, shardCount);
    var whole := Unpack(call, grid, lengths, shardCount, fill);
    unpacked := whole;
    rebuilt := seq(|grid.rows|,
                   row requires 0 <= row < |grid.rows| && forall i :: 0 <= i < |pieces| ==> row < |pieces[i]| =>
                   Flatten(PiecesOfRow(pieces, row)));
    forall row: nat | row < |grid.rows|
      ensures rebuilt[row] == grid.rows[row][..lengths[row]]
      ensures unpacked[row] == rebuilt[row] + Repeat(fill, grid.width - lengths[row])
    {
      RowComesBack(call, grid, lengths, shardCount, pieces, whole, fill, row);
    }
  }

  method Unpack<T>(call: PackedCall<T>, grid: Grid<T>, ghost lengths: seq<nat>, ghost shardCount: nat, fill: T)
    returns (rows: seq<seq<T>>)
    requires ReadyCall(call, grid, lengths, shardCount)
    ensures RestoresRows(rows, call.leaf.grid.rows[0], lengths, grid.width, fill)
  {
    ValidTokensLength(grid.rows, lengths);
    var r := UnpackOutput(call.leaf.grid.rows[0], call.meta, fill);
    rows := r.value;
  }

  /** The positions of a packed and padded call give back its row boundaries, and one more per pad token,
      exactly when no row is empty; otherwise they give those of the non-empty rows. */
  method ReadBoundaries<T>(mask: Grid<bool>, positions: Grid<int>, grid: Grid<T>, multiple: nat, padValue: T)
    returns (call: PackedCall<T>, read: seq<int>)
    requires mask.Valid() && grid.Valid() && SameShape(positions, mask) && SameShape(grid, mask)
    requires LeftAligned(mask) && multiple > 0 && CountFromZero(positions, RowLengths(mask))
    ensures
      var lengths := RowLengths(mask);
      var pads := call.meta.paddedTokens - Sum(lengths);
      && call.meta.cuSeqlens == PrefixSums(lengths) && 0 <= pads < multiple
      && read == PrefixSums(Positive(lengths + PadRows(pads)))
      && (read == PrefixSums(lengths + PadRows(pads)) <==> forall r :: 0 <= r < |lengths| ==> lengths[r] > 0)
  {
    ghost var lengths := RowLengths(mask);
    call := PackAndPad(mask, positions, grid, multiple, padValue);
    read := CuSeqlensFromPositions(call.positions);
    ghost var pads := call.meta.paddedTokens - Sum(lengths);
    PackedPositions(positions.rows, lengths);
    PositionsRecoverBoundaries(lengths, pads);
    PadPositionsAreRows(lengths, pads);
    PositionsGiveNonEmptyRows(lengths + PadRows(pads));
  }
}
