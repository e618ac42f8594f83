/** Packing a row group into one varlen call, padding it, and putting results back into rows
    (arctic_platform/common/packing/pack.py). A batch is its mask, its positions and one leaf of an
    arbitrary element type, with one value per token or one per row. */
module Packing {
  import opened Basics

  datatype PackError =
    | NoMask | BadPositions | NotLeftAligned | BadMultiple
    | LengthCount | LengthRange | MetadataDisagrees | IndexOutOfRange

  /** A `[rows, width]` tensor. */
  datatype Grid<T> = Grid(rows: seq<seq<T>>, width: nat) {
    ghost predicate Valid() {
      forall r :: 0 <= r < |rows| ==> |rows[r]| == width
    }
  }

  datatype Metadata = Metadata(
    batchSize: nat, sequenceLength: nat, validLengths: seq<int>, cuSeqlens: seq<int>, paddedTokens: nat)

  /** One leaf of a batch. `perRow` marks a key whose per-row values are broadcast to the row's tokens. */
  datatype Leaf<T> = Matrix(grid: Grid<T>) | Vector(values: seq<T>, perRow: bool) {
    ghost predicate Valid() {
      Matrix? ==> grid.Valid()
    }
  }

  /** Everything one packed call carries: a leaf, the positions and where the rows live. */
  datatype PackedCall<T> = PackedCall(leaf: Leaf<T>, positions: seq<int>, meta: Metadata)

  /** The `[1, T]` leaf of one packed call. */
  function AsCall<T>(tokens: seq<T>): Leaf<T> {
    Matrix(Grid([tokens], |tokens|))
  }

  predicate IsCall<T>(leaf: Leaf<T>, tokens: nat) {
    leaf.Matrix? && |leaf.grid.rows| == 1 && |leaf.grid.rows[0]| == leaf.grid.width == tokens
  }

  // ---------------------------------------------------------------- prefix sums and repeats

  /** Row boundaries: entry `i` is the total of the first `i` lengths. */
  function PrefixSums(lengths: seq<int>): (cu: seq<int>)
    ensures |cu| == |lengths| + 1
    ensures forall i :: 0 <= i <= |lengths| ==> cu[i] == Sum(lengths[..i])
  {
    seq(|lengths| + 1, i requires 0 <= i <= |lengths| => Sum(lengths[..i]))
  }

  lemma PrefixSumsStep(lengths: seq<int>, r: nat)
    requires r < |lengths|
    ensures PrefixSums(lengths)[r + 1] == PrefixSums(lengths)[r] + lengths[r]
  {
    assert lengths[..r + 1][..r] == lengths[..r];
  }

  lemma {:induction false} PrefixSumsMonotone(lengths: seq<nat>, i: nat, j: nat)
    requires i <= j <= |lengths|
    ensures 0 <= PrefixSums(lengths)[i] <= PrefixSums(lengths)[j]
    decreases j
  {
    if i < j {
      PrefixSumsMonotone(lengths, i, j - 1);
      PrefixSumsStep(lengths, j - 1);
    } else if i > 0 {
      PrefixSumsMonotone(lengths, i - 1, i - 1);
      PrefixSumsStep(lengths, i - 1);
    }
  }

  function Repeat<T>(x: T, n: nat): (s: seq<T>)
    ensures |s| == n && forall i :: 0 <= i < n ==> s[i] == x
  {
    seq(n, _ => x)
  }

  /** `torch.repeat_interleave`: each value as often as its count. */
  function RepeatInterleave<T>(values: seq<T>, counts: seq<nat>): (s: seq<T>)
    requires |values| == |counts|
  {
    if counts == [] then []
    else
      var k := |counts| - 1;
      RepeatInterleave(values[..k], counts[..k]) + Repeat(values[k], counts[k])
  }

  lemma {:induction false} RepeatInterleaveLength<T>(values: seq<T>, counts: seq<nat>)
    requires |values| == |counts|
    ensures |RepeatInterleave(values, counts)| == Sum(counts)
    decreases |counts|
  {
    if counts != [] {
      RepeatInterleaveLength(values[..|counts| - 1], counts[..|counts| - 1]);
    }
  }

  /** Token `k` of row `r` carries row `r`'s value. */
  lemma {:induction false} RepeatInterleaveAt<T>(values: seq<T>, counts: seq<nat>, r: nat, k: nat)
    requires |values| == |counts| && r < |counts| && k < counts[r]
    ensures
      var t := Sum(counts[..r]) + k;
      0 <= t < |RepeatInterleave(values, counts)| && RepeatInterleave(values, counts)[t] == values[r]
    decreases |counts|
  {
    var n := |counts| - 1;
    RepeatInterleaveLength(values, counts);
    RepeatInterleaveLength(values[..n], counts[..n]);
    if r < n {
      RepeatInterleaveAt(values[..n], counts[..n], r, k);
      assert counts[..n][..r] == counts[..r];
    } else {
      PrefixSumsMonotone(counts, 0, n);
    }
  }

  /** Every token of a packed call belongs to one row, at one offset. */
  lemma {:induction false} LocateToken(lengths: seq<nat>, t: nat) returns (r: nat, k: nat)
    requires t < Sum(lengths)
    ensures r < |lengths| && k < lengths[r] && t == Sum(lengths[..r]) + k
    decreases |lengths|
  {
    var n := |lengths| - 1;
    if t < Sum(lengths[..n]) {
      r, k := LocateToken(lengths[..n], t);
      assert lengths[..n][..r] == lengths[..r];
    } else {
      r, k := n, t - Sum(lengths[..n]);
    }
  }

  // ---------------------------------------------------------------- the packed index

  /** Position of every packed token in the flattened `[B * S]` batch. */
  function PackedTokenIndex(lengths: seq<nat>, cu: seq<int>, width: nat): (index: seq<int>)
    requires |cu| == |lengths| + 1
    ensures |index| == Sum(lengths)
  {
    RepeatInterleaveLength(Range(|lengths|), lengths);
    RepeatInterleaveLength(cu[..|lengths|], lengths);
    var rowIds := RepeatInterleave(Range(|lengths|), lengths);
    var rowStarts := RepeatInterleave(cu[..|lengths|], lengths);
    seq(|rowIds|, t requires 0 <= t < |rowIds| && t < |rowStarts| => rowIds[t] * width + (t - rowStarts[t]))
  }

  /** With row starts `cu`, token `k` of row `r` maps to its distance from the row start, in row `r`. */
  lemma PackedTokenIndexFrom(lengths: seq<nat>, cu: seq<int>, width: nat, r: nat, k: nat)
    requires |cu| == |lengths| + 1 && r < |lengths| && k < lengths[r]
    ensures
      var t := Sum(lengths[..r]) + k;
      && 0 <= t < Sum(lengths)
      && PackedTokenIndex(lengths, cu, width)[t] == r * width + (t - cu[r])
  {
    RepeatInterleaveAt(Range(|lengths|), lengths, r, k);
    RepeatInterleaveAt(cu[..|lengths|], lengths, r, k);
    RepeatInterleaveLength(Range(|lengths|), lengths);
  }

  /** Token `k` of row `r` comes from column `k` of row `r`. */
  lemma PackedTokenIndexAt(lengths: seq<nat>, width: nat, r: nat, k: nat)
    requires r < |lengths| && k < lengths[r]
    ensures
      var t := Sum(lengths[..r]) + k;
      && 0 <= t < Sum(lengths)
      && PackedTokenIndex(lengths, PrefixSums(lengths), width)[t] == r * width + k
  {
    PackedTokenIndexFrom(lengths, PrefixSums(lengths), width, r, k);
  }

  ghost predicate Fit(lengths: seq<nat>, width: nat) {
    forall r :: 0 <= r < |lengths| ==> lengths[r] <= width
  }

  lemma RowOffset(r: nat, k: nat, rows: nat, width: nat)
    requires r < rows && k < width
    ensures 0 <= r * width + k < rows * width
  {
    MulSucc(r, width);
    MulMonotone(width, r + 1, rows);
  }

  lemma IndexInRange(lengths: seq<nat>, width: nat)
    requires Fit(lengths, width)
    ensures forall t :: 0 <= t < Sum(lengths) ==>
              0 <= PackedTokenIndex(lengths, PrefixSums(lengths), width)[t] < |lengths| * width
  {
    forall t | 0 <= t < Sum(lengths)
      ensures 0 <= PackedTokenIndex(lengths, PrefixSums(lengths), width)[t] < |lengths| * width
    {
      TokenInRange(lengths, width, t);
    }
  }

  /** The row and column a packed token comes from. */
  lemma TokenPlace(lengths: seq<nat>, width: nat, t: nat) returns (r: nat, k: nat)
    requires t < Sum(lengths)
    ensures r < |lengths| && k < lengths[r] && t == Sum(lengths[..r]) + k
    ensures PackedTokenIndex(lengths, PrefixSums(lengths), width)[t] == r * width + k
  {
    r, k := LocateToken(lengths, t);
    PackedTokenIndexAt(lengths, width, r, k);
  }

  lemma TokenInRange(lengths: seq<nat>, width: nat, t: nat)
    requires Fit(lengths, width) && t < Sum(lengths)
    ensures 0 <= PackedTokenIndex(lengths, PrefixSums(lengths), width)[t] < |lengths| * width
  {
    var r, k := TokenPlace(lengths, width, t);
    RowOffset(r, k, |lengths|, width);
  }

  // ---------------------------------------------------------------- packing

  function CountTrue(row: seq<bool>): (n: nat)
    ensures n <= |row|
  {
    if row == [] then 0 else CountTrue(row[..|row| - 1]) + (if row[|row| - 1] then 1 else 0)
  }

  function RowLengths(mask: Grid<bool>): (lengths: seq<nat>)
    ensures |lengths| == |mask.rows| && forall r :: 0 <= r < |lengths| ==> lengths[r] == CountTrue(mask.rows[r])
  {
    seq(|mask.rows|, r requires 0 <= r < |mask.rows| => CountTrue(mask.rows[r]))
  }

  /** Every row's real tokens are its leading columns. */
  predicate LeftAligned(mask: Grid<bool>) {
    forall r :: 0 <= r < |mask.rows| ==> PrefixRow(mask.rows[r])
  }

  predicate PrefixRow(row: seq<bool>) {
    forall c :: 0 <= c < |row| ==> (row[c] <==> c < CountTrue(row))
  }

  /** The simple form of packing: the rows' valid prefixes, one after the other. */
  ghost function ValidTokens<T>(rows: seq<seq<T>>, lengths: seq<nat>): seq<T>
    requires |rows| == |lengths| && forall r :: 0 <= r < |rows| ==> lengths[r] <= |rows[r]|
  {
    if rows == [] then []
    else
      var k := |rows| - 1;
      ValidTokens(rows[..k], lengths[..k]) + rows[k][..lengths[k]]
  }

  lemma {:induction false} ValidTokensLength<T>(rows: seq<seq<T>>, lengths: seq<nat>)
    requires |rows| == |lengths| && forall r :: 0 <= r < |rows| ==> lengths[r] <= |rows[r]|
    ensures |ValidTokens(rows, lengths)| == Sum(lengths)
    decreases |rows|
  {
    if rows != [] {
      ValidTokensLength(rows[..|rows| - 1], lengths[..|rows| - 1]);
    }
  }

  lemma {:induction false} ValidTokensAt<T>(rows: seq<seq<T>>, lengths: seq<nat>, r: nat, k: nat)
    requires |rows| == |lengths| && forall i :: 0 <= i < |rows| ==> lengths[i] <= |rows[i]|
    requires r < |rows| && k < lengths[r]
    ensures
      var t := Sum(lengths[..r]) + k;
      0 <= t < |ValidTokens(rows, lengths)| && ValidTokens(rows, lengths)[t] == rows[r][k]
    decreases |rows|
  {
    var n := |rows| - 1;
    ValidTokensLength(rows[..n], lengths[..n]);
    if r < n {
      ValidTokensAt(rows[..n], lengths[..n], r, k);
      assert lengths[..n][..r] == lengths[..r];
    } else {
      PrefixSumsMonotone(lengths, 0, n);
    }
  }

  function IndexSelect<T>(flat: seq<T>, index: seq<int>): (picked: seq<T>)
    requires forall t :: 0 <= t < |index| ==> 0 <= index[t] < |flat|
    ensures |picked| == |index|
  {
    seq(|index|, t requires 0 <= t < |index| => flat[index[t]])
  }

  /** The single index_select of the source gathers exactly the rows' valid prefixes. */
  lemma IndexSelectPacks<T>(leaf: Grid<T>, lengths: seq<nat>)
    requires leaf.Valid() && |leaf.rows| == |lengths| && Fit(lengths, leaf.width)
    ensures |Flatten(leaf.rows)| == |lengths| * leaf.width
    ensures forall t :: 0 <= t < Sum(lengths) ==>
              0 <= PackedTokenIndex(lengths, PrefixSums(lengths), leaf.width)[t] < |Flatten(leaf.rows)|
    ensures IndexSelect(Flatten(leaf.rows), PackedTokenIndex(lengths, PrefixSums(lengths), leaf.width))
         == ValidTokens(leaf.rows, lengths)
  {
    var flat, index := Flatten(leaf.rows), PackedTokenIndex(lengths, PrefixSums(lengths), leaf.width);
    FlattenGridLength(leaf.rows, leaf.width);
    IndexInRange(lengths, leaf.width);
    var picked, valid := IndexSelect(flat, index), ValidTokens(leaf.rows, lengths);
    ValidTokensLength(leaf.rows, lengths);
    forall t | 0 <= t < Sum(lengths)
      ensures picked[t] == valid[t]
    {
      IndexSelectAt(leaf, lengths, t);
    }
  }

  lemma IndexSelectAt<T>(leaf: Grid<T>, lengths: seq<nat>, t: nat)
    requires leaf.Valid() && |leaf.rows| == |lengths| && Fit(lengths, leaf.width) && t < Sum(lengths)
    ensures
      var i := PackedTokenIndex(lengths, PrefixSums(lengths), leaf.width)[t];
      && 0 <= i < |Flatten(leaf.rows)| && t < |ValidTokens(leaf.rows, lengths)|
      && Flatten(leaf.rows)[i] == ValidTokens(leaf.rows, lengths)[t]
  {
    var r, k := LocateToken(lengths, t);
    PackedTokenIndexAt(lengths, leaf.width, r, k);
    FlattenGrid(leaf.rows, leaf.width, r, k);
    ValidTokensAt(leaf.rows, lengths, r, k);
  }

  /** Each row's value once per valid token of the row. */
  function Spread<T>(values: seq<T>, lengths: seq<nat>): (rows: seq<seq<T>>)
    requires |values| == |lengths|
    ensures |rows| == |values| && forall r :: 0 <= r < |rows| ==> rows[r] == Repeat(values[r], lengths[r])
  {
    seq(|values|, r requires 0 <= r < |values| => Repeat(values[r], lengths[r]))
  }

  /** A per-row leaf broadcast to its row's tokens stays paired with the packed rows. */
  lemma {:induction false} BroadcastPacks<T>(values: seq<T>, lengths: seq<nat>)
    requires |values| == |lengths|
    ensures RepeatInterleave(values, lengths) == ValidTokens(Spread(values, lengths), lengths)
    decreases |values|
  {
    if values != [] {
      var k := |values| - 1;
      BroadcastPacks(values[..k], lengths[..k]);
      assert Spread(values, lengths)[..k] == Spread(values[..k], lengths[..k]);
    }
  }

  /** The simple form of packing a leaf: per-token and broadcast leaves become their rows' valid values,
      one after the other; a leaf of any other shape is carried through. */
  ghost function PackedLeaf<T>(leaf: Leaf<T>, lengths: seq<nat>, width: nat): Leaf<T>
    requires leaf.Valid() && Fit(lengths, width)
  {
    match leaf
    case Vector(values, perRow) =>
      if perRow && |values| == |lengths| then AsCall(ValidTokens(Spread(values, lengths), lengths)) else leaf
    case Matrix(grid) =>
      if |grid.rows| == |lengths| && grid.width == width then AsCall(ValidTokens(grid.rows, lengths)) else leaf
  }

  /** One leaf, packed through the index that serves every leaf. */
  function PackLeaf<T>(leaf: Leaf<T>, lengths: seq<nat>, width: nat): (packed: Leaf<T>)
    requires leaf.Valid() && Fit(lengths, width)
    ensures packed == PackedLeaf(leaf, lengths, width)
  {
    match leaf
    case Vector(values, perRow) =>
      if perRow && |values| == |lengths| then
        BroadcastPacks(values, lengths);
        AsCall(RepeatInterleave(values, lengths))
      else leaf
    case Matrix(grid) =>
      if |grid.rows| == |lengths| && grid.width == width then
        IndexSelectPacks(grid, lengths);
        AsCall(IndexSelect(Flatten(grid.rows), PackedTokenIndex(lengths, PrefixSums(lengths), width)))
      else leaf
  }

  ghost predicate PackMetadataOf(meta: Metadata, lengths: seq<nat>, width: nat) {
    && meta.batchSize == |lengths| && meta.sequenceLength == width && Fit(lengths, width)
    && meta.validLengths == lengths && meta.cuSeqlens == PrefixSums(lengths)
    && meta.paddedTokens >= Sum(lengths)
  }

  predicate SameShape<T, U>(a: Grid<T>, b: Grid<U>) {
    |a.rows| == |b.rows| && a.width == b.width
  }

  /** What packing a left-aligned batch produces. */
  ghost predicate PacksBatch<T>(call: PackedCall<T>, mask: Grid<bool>, positions: Grid<int>, leaf: Leaf<T>)
    requires mask.Valid() && positions.Valid() && leaf.Valid() && SameShape(positions, mask)
  {
    var lengths := RowLengths(mask);
    && PackMetadataOf(call.meta, lengths, mask.width) && call.meta.paddedTokens == Sum(lengths)
    && call.leaf == PackedLeaf(leaf, lengths, mask.width)
    && call.positions == ValidTokens(positions.rows, lengths)
  }

  method PackMicrobatch<T>(mask: Option<Grid<bool>>, positions: Option<Grid<int>>, leaf: Leaf<T>)
    returns (r: Result<PackedCall<T>, PackError>)
    requires (mask.Some? ==> mask.value.Valid()) && (positions.Some? ==> positions.value.Valid()) && leaf.Valid()
    ensures
      if mask.None? then r == Err(NoMask)
      else if positions.None? || !SameShape(positions.value, mask.value) then r == Err(BadPositions)
      else if !LeftAligned(mask.value) then r == Err(NotLeftAligned)
      else r.Ok? && PacksBatch(r.value, mask.value, positions.value, leaf)
  {
    if mask.None? {
      return Err(NoMask);
    }
    var m := mask.value;
    if positions.None? || !SameShape(positions.value, m) {
      return Err(BadPositions);
    }
    var lengths := RowLengths(m);
    if !LeftAligned(m) {
      return Err(NotLeftAligned);
    }
    var cu := PrefixSums(lengths);
    PrefixSumsMonotone(lengths, 0, |lengths|);
    assert lengths[..|lengths|] == lengths;
    IndexSelectPacks(positions.value, lengths);
    var packedPositions := IndexSelect(Flatten(positions.value.rows), PackedTokenIndex(lengths, cu, m.width));
    var meta := Metadata(|m.rows|, m.width, lengths, cu, Sum(lengths));
    return Ok(PackedCall(PackLeaf(leaf, lengths, m.width), packedPositions, meta));
  }

  // ---------------------------------------------------------------- padding

  /** The next multiple of `multiple` at or above `tokens`. */
  function PaddedWidth(tokens: nat, multiple: nat): (padded: nat)
    requires multiple > 0
    ensures tokens <= padded < tokens + multiple && padded % multiple == 0
  {
    var q := (tokens + multiple - 1) / multiple;
    assert tokens + multiple - 1 == multiple * q + (tokens + multiple - 1) % multiple;
    ExactDivision(multiple * q, multiple, q);
    q * multiple
  }

  /** A leaf as wide as the call grows at the tail of every row; any other leaf is carried through. */
  function PadLeaf<T>(leaf: Leaf<T>, current: nat, padded: nat, padValue: T): (r: Leaf<T>)
    requires current <= padded
    ensures leaf.Vector? || leaf.grid.width != current ==> r == leaf
    ensures leaf.Matrix? && leaf.grid.width == current ==>
              && r.Matrix? && r.grid.width == padded && |r.grid.rows| == |leaf.grid.rows|
              && forall i :: 0 <= i < |leaf.grid.rows| ==>
                   r.grid.rows[i] == leaf.grid.rows[i] + Repeat(padValue, padded - current)
  {
    if leaf.Matrix? && leaf.grid.width == current then
      var rows := leaf.grid.rows;
      Matrix(Grid(seq(|rows|, i requires 0 <= i < |rows| => rows[i] + Repeat(padValue, padded - current)), padded))
    else leaf
  }

  /** Right-pad a packed call; the positions pad with 0. */
  function PadPacked<T>(call: PackedCall<T>, multiple: int, padValue: T): (r: Result<PackedCall<T>, PackError>)
    ensures multiple <= 0 <==> r.Err?
    ensures multiple > 0 ==>
              var current, padded := call.meta.paddedTokens, r.value.meta.paddedTokens;
              && r.Ok? && current <= padded < current + multiple && padded % multiple == 0
              && r.value.meta == call.meta.(paddedTokens := padded)
              && (call.leaf.Vector? || call.leaf.grid.width != current ==> r.value.leaf == call.leaf)
              && (IsCall(call.leaf, current) ==>
                    r.value.leaf == AsCall(call.leaf.grid.rows[0] + Repeat(padValue, padded - current)))
              && (|call.positions| == current ==> r.value.positions == call.positions + Repeat(0, padded - current))
  {
    if multiple <= 0 then Err(BadMultiple)
    else
      var current := call.meta.paddedTokens;
      var padded := PaddedWidth(current, multiple);
      if padded == current then
        assert IsCall(call.leaf, current) ==> call.leaf.grid.rows[0] + Repeat(padValue, 0) == call.leaf.grid.rows[0];
        assert IsCall(call.leaf, current) ==> call.leaf == AsCall(call.leaf.grid.rows[0]);
        assert call.positions + Repeat(0, 0) == call.positions;
        Ok(call)
      else
        var positions := if |call.positions| == current then call.positions + Repeat(0, padded - current)
            else call.positions;
        var leaf := PadLeaf(call.leaf, current, padded, padValue);
        assert IsCall(call.leaf, current) ==>
            leaf.grid.rows == [call.leaf.grid.rows[0] + Repeat(padValue, padded - current)];
        Ok(PackedCall(leaf, positions, call.meta.(paddedTokens := padded)))
  }

  // ---------------------------------------------------------------- restoring rows

  /** One restored row: the row's tokens, then the pad value. */
  ghost predicate RestoredRow<T>(row: seq<T>, tokens: seq<T>, lengths: seq<nat>, pad: T, r: nat, width: nat) {
    |row| == width && r < |lengths| && forall c :: 0 <= c < width ==> RestoredAt(row[c], tokens, lengths, pad, r, c)
  }

  ghost predicate RestoredAt<T>(x: T, tokens: seq<T>, lengths: seq<nat>, pad: T, r: nat, c: nat)
    requires r < |lengths|
  {
    if c < lengths[r] then
      var t := Sum(lengths[..r]) + c;
      0 <= t < |tokens| && x == tokens[t]
    else x == pad
  }

  /** What `unpack_output` must produce. */
  ghost predicate RestoresRows<T>(rows: seq<seq<T>>, tokens: seq<T>, lengths: seq<nat>, width: nat, pad: T) {
    |rows| == |lengths| && forall r :: 0 <= r < |rows| ==> RestoredRow(rows[r], tokens, lengths, pad, r, width)
  }

  /** Distinct tokens land in distinct places. */
  lemma IndexInjective(lengths: seq<nat>, width: nat, t: nat, u: nat)
    requires Fit(lengths, width) && t < Sum(lengths) && u < Sum(lengths)
    requires var index := PackedTokenIndex(lengths, PrefixSums(lengths), width); index[t] == index[u]
    ensures t == u
  {
    var r, k := TokenPlace(lengths, width, t);
    var q, j := TokenPlace(lengths, width, u);
    RowOfOffset(r, k, q, j, width);
  }

  lemma RowOfOffset(r: nat, k: nat, q: nat, j: nat, width: nat)
    requires k < width && j < width && r * width + k == q * width + j
    ensures r == q && k == j
  {
    if r < q {
      MulSucc(r, width);
      MulMonotone(width, r + 1, q);
      assert false;
    } else if q < r {
      MulSucc(q, width);
      MulMonotone(width, q + 1, r);
      assert false;
    }
  }

  /** `torch.full` over the flattened batch. */
  function Blank<T>(pad: T, rows: nat, width: nat): (s: seq<T>)
    ensures |s| == rows * width && forall i :: 0 <= i < |s| ==> s[i] == pad
  {
    Repeat(pad, rows * width)
  }

  /** A buffer after the first `n` writes of an `index_copy_`. */
  ghost function Copied<T>(buffer: seq<T>, index: seq<int>, tokens: seq<T>, n: nat): (out: seq<T>)
    requires n <= |index| && n <= |tokens| && forall t :: 0 <= t < n ==> 0 <= index[t] < |buffer|
    ensures |out| == |buffer|
  {
    if n == 0 then buffer else Copied(buffer, index, tokens, n - 1)[index[n - 1] := tokens[n - 1]]
  }

  /** The in-place scatter. A short source or an index outside the buffer is an error. */
  method IndexCopy<T>(output: array<T>, index: seq<int>, tokens: seq<T>) returns (ok: bool)
    modifies output
    ensures ok <==> |index| <= |tokens| && forall t :: 0 <= t < |index| ==> 0 <= index[t] < output.Length
    ensures ok ==> output[..] == Copied(old(output[..]), index, tokens, |index|)
  {
    if |index| > |tokens| || exists t :: 0 <= t < |index| && !(0 <= index[t] < output.Length) {
      return false;
    }
    for t := 0 to |index|
      invariant output[..] == Copied(old(output[..]), index, tokens, t)
    {
      output[index[t]] := tokens[t];
    }
    return true;
  }

  /** A written place keeps its token, because no later token is written there. */
  lemma {:induction false} CopiedAt<T>(
      buffer: seq<T>, lengths: seq<nat>, width: nat, index: seq<int>, tokens: seq<T>, n: nat, t: nat)
    requires Fit(lengths, width) && index == PackedTokenIndex(lengths, PrefixSums(lengths), width)
    requires t < n <= |index| <= |tokens| && forall u :: 0 <= u < |index| ==> 0 <= index[u] < |buffer|
    ensures Copied(buffer, index, tokens, n)[index[t]] == tokens[t]
    decreases n
  {
    if t < n - 1 {
      CopiedAt(buffer, lengths, width, index, tokens, n - 1, t);
      if index[t] == index[n - 1] {
        IndexInjective(lengths, width, t, n - 1);
      }
    }
  }

  lemma {:induction false} NotCopiedAt<T>(buffer: seq<T>, index: seq<int>, tokens: seq<T>, n: nat, p: nat)
    requires n <= |index| <= |tokens| && forall u :: 0 <= u < |index| ==> 0 <= index[u] < |buffer|
    requires p < |buffer| && forall u :: 0 <= u < n ==> index[u] != p
    ensures Copied(buffer, index, tokens, n)[p] == buffer[p]
    decreases n
  {
    if n > 0 {
      NotCopiedAt(buffer, index, tokens, n - 1, p);
    }
  }

  lemma PadPlaceUntouched(lengths: seq<nat>, width: nat, r: nat, c: nat)
    requires Fit(lengths, width) && r < |lengths| && lengths[r] <= c < width
    ensures forall u :: 0 <= u < Sum(lengths) ==>
            PackedTokenIndex(lengths, PrefixSums(lengths), width)[u] != r * width + c
  {
    var index := PackedTokenIndex(lengths, PrefixSums(lengths), width);
    forall u | 0 <= u < Sum(lengths)
      ensures index[u] != r * width + c
    {
      var q, j := TokenPlace(lengths, width, u);
      if index[u] == r * width + c {
        RowOfOffset(r, c, q, j, width);
      }
    }
  }

  function RowSlice<T>(flat: seq<T>, rows: nat, width: nat, i: nat): (row: seq<T>)
    requires |flat| == rows * width && i < rows
    ensures |row| == width
  {
    MulSucc(i, width);
    MulMonotone(width, i + 1, rows);
    flat[i * width..(i + 1) * width]
  }

  /** The `[B, S]` view of a flat buffer. */
  function Rows<T>(flat: seq<T>, rows: nat, width: nat): (grid: seq<seq<T>>)
    requires |flat| == rows * width
    ensures |grid| == rows && forall i :: 0 <= i < rows ==> grid[i] == RowSlice(flat, rows, width, i)
  {
    seq(rows, i requires 0 <= i < rows => RowSlice(flat, rows, width, i))
  }

  ghost predicate FlatRestoredAt<T>(
      flat: seq<T>, tokens: seq<T>, lengths: seq<nat>, width: nat, pad: T, r: nat, c: nat)
    requires r < |lengths|
  {
    0 <= r * width + c < |flat| && RestoredAt(flat[r * width + c], tokens, lengths, pad, r, c)
  }

  lemma FlatRestoresRow<T>(flat: seq<T>, tokens: seq<T>, lengths: seq<nat>, width: nat, pad: T, r: nat)
    requires |flat| == |lengths| * width && r < |lengths|
    requires forall c: nat :: c < width ==> FlatRestoredAt(flat, tokens, lengths, width, pad, r, c)
    ensures RestoredRow(RowSlice(flat, |lengths|, width, r), tokens, lengths, pad, r, width)
  {
    var row := RowSlice(flat, |lengths|, width, r);
    forall c | 0 <= c < width ensures RestoredAt(row[c], tokens, lengths, pad, r, c) {
      assert FlatRestoredAt(flat, tokens, lengths, width, pad, r, c);
      RowSliceAt(flat, |lengths|, width, r, c);
    }
  }

  lemma CopiedRestoresAt<T>(
      tokens: seq<T>, lengths: seq<nat>, width: nat, pad: T, index: seq<int>, flat: seq<T>, r: nat, c: nat)
    requires Fit(lengths, width) && |index| <= |tokens| && r < |lengths| && c < width
    requires index == PackedTokenIndex(lengths, PrefixSums(lengths), width)
    requires forall u :: 0 <= u < |index| ==> 0 <= index[u] < |lengths| * width
    requires flat == Copied(Blank(pad, |lengths|, width), index, tokens, |index|)
    ensures FlatRestoredAt(flat, tokens, lengths, width, pad, r, c)
  {
    RowOffset(r, c, |lengths|, width);
    var blank, place := Blank(pad, |lengths|, width), r * width + c;
    if c < lengths[r] {
      PackedTokenIndexAt(lengths, width, r, c);
      CopiedAt(blank, lengths, width, index, tokens, |index|, Sum(lengths[..r]) + c);
    } else {
      PadPlaceUntouched(lengths, width, r, c);
      NotCopiedAt(blank, index, tokens, |index|, place);
    }
  }

  lemma FlatRestores<T>(flat: seq<T>, tokens: seq<T>, lengths: seq<nat>, width: nat, pad: T)
    requires |flat| == |lengths| * width
    requires forall r: nat, c: nat :: r < |lengths| && c < width ==>
             FlatRestoredAt(flat, tokens, lengths, width, pad, r, c)
    ensures RestoresRows(Rows(flat, |lengths|, width), tokens, lengths, width, pad)
  {
    forall r: nat | r < |lengths|
      ensures RestoredRow(RowSlice(flat, |lengths|, width, r), tokens, lengths, pad, r, width)
    {
      FlatRestoresRow(flat, tokens, lengths, width, pad, r);
    }
  }

  lemma CopiedRestores<T>(tokens: seq<T>, lengths: seq<nat>, width: nat, pad: T, index: seq<int>, flat: seq<T>)
    requires Fit(lengths, width) && |index| <= |tokens|
    requires index == PackedTokenIndex(lengths, PrefixSums(lengths), width)
    requires forall u :: 0 <= u < |index| ==> 0 <= index[u] < |lengths| * width
    requires flat == Copied(Blank(pad, |lengths|, width), index, tokens, |index|)
    ensures RestoresRows(Rows(flat, |lengths|, width), tokens, lengths, width, pad)
  {
    forall r: nat, c: nat | r < |lengths| && c < width
      ensures FlatRestoredAt(flat, tokens, lengths, width, pad, r, c)
    {
      CopiedRestoresAt(tokens, lengths, width, pad, index, flat, r, c);
    }
    FlatRestores(flat, tokens, lengths, width, pad);
  }

  lemma RowSliceAt<T>(flat: seq<T>, rows: nat, width: nat, i: nat, c: nat)
    requires |flat| == rows * width && i < rows && c < width
    ensures 0 <= i * width + c < |flat| && RowSlice(flat, rows, width, i)[c] == flat[i * width + c]
  {
    RowOffset(i, c, rows, width);
  }

  function Differences(cu: seq<int>): (d: seq<int>)
    ensures |d| == if |cu| == 0 then 0 else |cu| - 1
    ensures forall i :: 0 <= i < |d| ==> d[i] == cu[i + 1] - cu[i]
  {
    if cu == [] then [] else seq(|cu| - 1, i requires 0 <= i < |cu| - 1 => cu[i + 1] - cu[i])
  }

  lemma PrefixSumsDiffer(lengths: seq<int>)
    ensures Differences(PrefixSums(lengths)) == lengths
  {
    forall i | 0 <= i < |lengths| ensures Differences(PrefixSums(lengths))[i] == lengths[i] {
      PrefixSumsStep(lengths, i);
    }
  }

  ghost predicate LengthsInRange(meta: Metadata) {
    |meta.validLengths| == meta.batchSize
    && forall i :: 0 <= i < meta.batchSize ==> 0 <= meta.validLengths[i] <= meta.sequenceLength
  }

  /** The scatter has a token for every index and a place for every token. */
  ghost predicate Scatters<T>(index: seq<int>, tokens: seq<T>, size: nat) {
    |index| <= |tokens| && forall t :: 0 <= t < |index| ==> 0 <= index[t] < size
  }

  /** Boundaries whose widths are the lengths, wherever they start. */
  ghost predicate SelfConsistent(meta: Metadata) {
    && LengthsInRange(meta) && meta.batchSize > 0
    && |meta.cuSeqlens| == meta.batchSize + 1 && Differences(meta.cuSeqlens) == meta.validLengths
  }

  /** Boundaries that start at `cu[0]` instead of 0 send every token that many places too early. */
  lemma IndexShifts(lengths: seq<nat>, cu: seq<int>, width: nat, t: nat)
    requires |cu| == |lengths| + 1 && Differences(cu) == lengths && t < Sum(lengths)
    ensures PackedTokenIndex(lengths, cu, width)[t] == PackedTokenIndex(lengths, PrefixSums(lengths), width)[t] - cu[0]
  {
    var r, k := LocateToken(lengths, t);
    StartsShift(lengths, cu, r);
    PackedTokenIndexFrom(lengths, cu, width, r, k);
    PackedTokenIndexAt(lengths, width, r, k);
  }

  lemma {:induction false} StartsShift(lengths: seq<nat>, cu: seq<int>, r: nat)
    requires |cu| == |lengths| + 1 && Differences(cu) == lengths && r <= |lengths|
    ensures cu[r] == PrefixSums(lengths)[r] + cu[0]
    decreases r
  {
    if r > 0 {
      StartsShift(lengths, cu, r - 1);
      PrefixSumsStep(lengths, r - 1);
      assert Differences(cu)[r - 1] == cu[r] - cu[r - 1];
    }
  }

  /** What unpacking answers: the checks in order, then the scattered buffer viewed as rows. */
  ghost function Unpacked<T>(tokens: seq<T>, meta: Metadata, pad: T): Result<seq<seq<T>>, PackError> {
    var rows, width := meta.batchSize, meta.sequenceLength;
    if |meta.validLengths| != rows then Err(LengthCount)
    else if rows == 0 then Ok([])
    else if !LengthsInRange(meta) then Err(LengthRange)
    else if !SelfConsistent(meta) then Err(MetadataDisagrees)
    else
      var index := PackedTokenIndex(meta.validLengths, meta.cuSeqlens, width);
      if !Scatters(index, tokens, |Blank(pad, rows, width)|) then Err(IndexOutOfRange)
      else Ok(Rows(Copied(Blank(pad, rows, width), index, tokens, |index|), rows, width))
  }

  /** For the boundaries that packing makes, every row is its tokens and then pads. */
  lemma UnpackedRestores<T>(tokens: seq<T>, meta: Metadata, pad: T)
    requires LengthsInRange(meta) && meta.cuSeqlens == PrefixSums(meta.validLengths)
    requires Sum(meta.validLengths) <= |tokens|
    ensures
      var r := Unpacked(tokens, meta, pad);
      r.Ok? && RestoresRows(r.value, tokens, meta.validLengths, meta.sequenceLength, pad)
  {
    var lengths: seq<nat>, width := meta.validLengths, meta.sequenceLength;
    if lengths != [] {
      PrefixSumsDiffer(lengths);
      IndexInRange(lengths, width);
      var index, blank := PackedTokenIndex(lengths, meta.cuSeqlens, width), Blank(pad, |lengths|, width);
      CopiedRestores(tokens, lengths, width, pad, index, Copied(blank, index, tokens, |index|));
    }
  }

  /** Packed order is flat order. */
  lemma IndexAscends(lengths: seq<nat>, width: nat, t: nat, u: nat)
    requires Fit(lengths, width) && t < u < Sum(lengths)
    ensures
      var index := PackedTokenIndex(lengths, PrefixSums(lengths), width);
      index[t] < index[u]
  {
    var r, k := TokenPlace(lengths, width, t);
    var q, j := TokenPlace(lengths, width, u);
    RowsInOrder(lengths, r, k, q, j);
    OffsetsAscend(r, k, q, j, width);
  }

  lemma OffsetsAscend(r: nat, k: nat, q: nat, j: nat, width: nat)
    requires k < width && (r < q || (r == q && k < j))
    ensures r * width + k < q * width + j
  {
    if r < q {
      MulSucc(r, width);
      MulMonotone(width, r + 1, q);
    }
  }

  lemma RowsInOrder(lengths: seq<nat>, r: nat, k: nat, q: nat, j: nat)
    requires r < |lengths| && q < |lengths| && k < lengths[r] && j < lengths[q]
    requires Sum(lengths[..r]) + k < Sum(lengths[..q]) + j
    ensures r < q || (r == q && k < j)
  {
    if q < r {
      PrefixSumsStep(lengths, q);
      PrefixSumsMonotone(lengths, q + 1, r);
    }
  }

  /** Some token's place is not written when every write is shifted by `cu[0]`. */
  lemma ShiftedScatterMisses(lengths: seq<nat>, cu: seq<int>, width: nat) returns (t: nat)
    requires Fit(lengths, width) && Sum(lengths) > 0
    requires |cu| == |lengths| + 1 && Differences(cu) == lengths && cu[0] != 0
    ensures t < Sum(lengths)
    ensures
      var place := PackedTokenIndex(lengths, PrefixSums(lengths), width)[t];
      forall u :: 0 <= u < Sum(lengths) ==> PackedTokenIndex(lengths, cu, width)[u] != place
  {
    var n := Sum(lengths);
    t := if cu[0] > 0 then n - 1 else 0;
    forall u | 0 <= u < n
      ensures PackedTokenIndex(lengths, cu, width)[u] != PackedTokenIndex(lengths, PrefixSums(lengths), width)[t]
    {
      IndexShifts(lengths, cu, width, u);
      if u < t {
        IndexAscends(lengths, width, u, t);
      } else if t < u {
        IndexAscends(lengths, width, t, u);
      }
    }
  }

  /** The rows that unpacking gives back are the call's rows. */
  ghost predicate UnpacksRows(tokens: seq<int>, meta: Metadata, pad: int)
    requires LengthsInRange(meta)
  {
    var r := Unpacked(tokens, meta, pad);
    r.Ok? && RestoresRows(r.value, tokens, meta.validLengths, meta.sequenceLength, pad)
  }

  /** An unwritten place keeps the pad value. */
  lemma UnwrittenIsPad(index: seq<int>, tokens: seq<int>, rows: nat, width: nat, q: nat, k: nat)
    requires Scatters(index, tokens, |Blank(0, rows, width)|) && q < rows && k < width
    requires forall u :: 0 <= u < |index| ==> index[u] != q * width + k
    ensures Rows(Copied(Blank(0, rows, width), index, tokens, |index|), rows, width)[q][k] == 0
  {
    RowOffset(q, k, rows, width);
    NotCopiedAt(Blank(0, rows, width), index, tokens, |index|, q * width + k);
    RowSliceAt(Copied(Blank(0, rows, width), index, tokens, |index|), rows, width, q, k);
  }

  lemma RestoredToken(rows: seq<seq<int>>, tokens: seq<int>, lengths: seq<nat>, width: nat, q: nat, k: nat)
    requires RestoresRows(rows, tokens, lengths, width, 0) && Fit(lengths, width)
    requires q < |lengths| && k < lengths[q]
    ensures
      var t := Sum(lengths[..q]) + k;
      0 <= t < |tokens| && |rows[q]| == width && rows[q][k] == tokens[t]
  {
    assert RestoredRow(rows[q], tokens, lengths, 0, q, width);
    assert RestoredAt(rows[q][k], tokens, lengths, 0, q, k);
  }

  /** A scatter that misses the place of one of the ones does not restore the rows. */
  lemma MissedOneIsLost(index: seq<int>, tokens: seq<int>, lengths: seq<nat>, width: nat, t: nat)
    requires Fit(lengths, width) && t < Sum(lengths) && tokens == Repeat(1, Sum(lengths))
    requires Scatters(index, tokens, |Blank(0, |lengths|, width)|)
    requires forall u :: 0 <= u < |index| ==> index[u] != PackedTokenIndex(lengths, PrefixSums(lengths), width)[t]
    ensures !RestoresRows(
              Rows(Copied(Blank(0, |lengths|, width), index, tokens, |index|), |lengths|, width), tokens, lengths,
                  width, 0)
  {
    var rows := Rows(Copied(Blank(0, |lengths|, width), index, tokens, |index|), |lengths|, width);
    var q, k := TokenPlace(lengths, width, t);
    UnwrittenIsPad(index, tokens, |lengths|, width, q, k);
    if RestoresRows(rows, tokens, lengths, width, 0) {
      RestoredToken(rows, tokens, lengths, width, q, k);
    }
  }

  lemma ShiftedRowsAreLost(tokens: seq<int>, meta: Metadata)
    requires SelfConsistent(meta) && Sum(meta.validLengths) > 0 && meta.cuSeqlens[0] != 0
    requires tokens == Repeat(1, Sum(meta.validLengths))
    ensures !UnpacksRows(tokens, meta, 0)
  {
    var lengths: seq<nat>, width := meta.validLengths, meta.sequenceLength;
    var index := PackedTokenIndex(lengths, meta.cuSeqlens, width);
    var t := ShiftedScatterMisses(lengths, meta.cuSeqlens, width);
    if Scatters(index, tokens, |Blank(0, |lengths|, width)|) {
      MissedOneIsLost(index, tokens, lengths, width, t);
    }
  }

  /** Self-consistent metadata gives every call's rows back exactly when its boundaries start at 0, which
      the check of segment widths does not establish. */
  lemma UnpackRestoresIff(meta: Metadata)
    requires SelfConsistent(meta) && Sum(meta.validLengths) > 0
    ensures (forall tokens: seq<int>, pad: int :: |tokens| >= Sum(meta.validLengths) ==> UnpacksRows(tokens, meta, pad))
            <==> meta.cuSeqlens[0] == 0
  {
    var lengths: seq<nat> := meta.validLengths;
    if meta.cuSeqlens[0] == 0 {
      forall r: nat | r <= |lengths| ensures meta.cuSeqlens[r] == PrefixSums(lengths)[r] {
        StartsShift(lengths, meta.cuSeqlens, r);
      }
      assert meta.cuSeqlens == PrefixSums(lengths);
      forall tokens: seq<int>, pad: int | |tokens| >= Sum(lengths) ensures UnpacksRows(tokens, meta, pad) {
        UnpackedRestores(tokens, meta, pad);
      }
    } else {
      ShiftedRowsAreLost(Repeat(1, Sum(lengths)), meta);
    }
  }

  /** Scatter a packed call back into a `[B, S]` buffer filled with the pad value. */
  method UnpackOutput<T>(tokens: seq<T>, meta: Metadata, pad: T) returns (r: Result<seq<seq<T>>, PackError>)
    ensures r == Unpacked(tokens, meta, pad)
    ensures LengthsInRange(meta) && meta.cuSeqlens == PrefixSums(meta.validLengths)
            && Sum(meta.validLengths) <= |tokens| ==>
              r.Ok? && RestoresRows(r.value, tokens, meta.validLengths, meta.sequenceLength, pad)
  {
    if LengthsInRange(meta) && meta.cuSeqlens == PrefixSums(meta.validLengths) && Sum(meta.validLengths) <= |tokens| {
      UnpackedRestores(tokens, meta, pad);
    }
    var rows, width := meta.batchSize, meta.sequenceLength;
    if |meta.validLengths| != rows {
      return Err(LengthCount);
    }
    if rows == 0 {
      return Ok([]);
    }
    if exists i :: 0 <= i < rows && !(0 <= meta.validLengths[i] <= width) {
      return Err(LengthRange);
    }
    if Differences(meta.cuSeqlens) != meta.validLengths {
      return Err(MetadataDisagrees);
    }
    var flat := ScatterInto(PackedTokenIndex(meta.validLengths, meta.cuSeqlens, width), tokens, pad, rows, width);
    return if flat.None? then Err(IndexOutOfRange) else Ok(Rows(flat.value, rows, width));
  }

  /** The fresh buffer after the in-place scatter. */
  method ScatterInto<T>(index: seq<int>, tokens: seq<T>, pad: T, rows: nat, width: nat) returns (flat: Option<seq<T>>)
    ensures
      var blank := Blank(pad, rows, width);
      flat == if Scatters(index, tokens, |blank|) then Some(Copied(blank, index, tokens, |index|)) else None
    ensures flat.Some? ==> |flat.value| == rows * width
  {
    var output := new T[|Blank(pad, rows, width)|](_ => pad);
    assert output[..] == Blank(pad, rows, width);
    var ok := IndexCopy(output, index, tokens);
    return if ok then Some(output[..]) else None;
  }

  /** Packing, padding and unpacking is the identity on real tokens, and pads the rest. */
  lemma PackUnpackRoundTrip<T>(
      leaf: Grid<T>, lengths: seq<nat>, tokens: seq<T>, rows: seq<seq<T>>, pad: T, r: nat, c: nat)
    requires leaf.Valid() && |leaf.rows| == |lengths| && Fit(lengths, leaf.width)
    requires ValidTokens(leaf.rows, lengths) <= tokens
    requires RestoresRows(rows, tokens, lengths, leaf.width, pad)
    requires r < |rows| && c < leaf.width
    ensures |rows[r]| == leaf.width && rows[r][c] == if c < lengths[r] then leaf.rows[r][c] else pad
  {
    assert RestoredRow(rows[r], tokens, lengths, pad, r, leaf.width);
    assert RestoredAt(rows[r][c], tokens, lengths, pad, r, c);
    if c < lengths[r] {
      ValidTokensAt(leaf.rows, lengths, r, c);
    }
  }
}
