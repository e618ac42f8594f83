/** Two ways to describe one expert-LoRA factor that is sharded over expert-parallel ranks
    (arctic_platform/model/weight_export.py, _gather_ep_expert_lora, _reshape_expert_lora_for_ep,
    iter_lora_weights). Tensors are flat row-major data with their dimensions. */
module ExpertLora {
  import opened Basics

  datatype Kind = A | B

  datatype Matrix<T> = Matrix(rows: nat, cols: nat, data: seq<T>) {
    ghost predicate Valid() {
      |data| == rows * cols
    }
  }

  datatype Cube<T> = Cube(d0: nat, d1: nat, d2: nat, data: seq<T>) {
    ghost predicate Valid() {
      |data| == Volume(d0, d1, d2)
    }
  }

  function Volume(a: nat, b: nat, c: nat): nat {
    a * b * c
  }

  // ---------------------------------------------------------------- index arithmetic

  /** Row-major position of entry (i, j, k) when the two inner dimensions are `b` and `c`. */
  function Offset(b: nat, c: nat, i: nat, j: nat, k: nat): nat {
    (i * b + j) * c + k
  }

  lemma InnerOffset(a: nat, b: nat, i: nat, j: nat)
    requires i < a && j < b
    ensures 0 <= i * b + j < a * b
  {
    MulSucc(i, b);
    MulMonotone(b, i + 1, a);
  }

  lemma OffsetInRange(a: nat, b: nat, c: nat, i: nat, j: nat, k: nat)
    requires i < a && j < b && k < c
    ensures Offset(b, c, i, j, k) < Volume(a, b, c)
  {
    InnerOffset(a, b, i, j);
    InnerOffset(a * b, c, i * b + j, k);
  }

  lemma DivModOf(q: nat, d: nat, r: nat)
    requires r < d
    ensures (q * d + r) / d == q && (q * d + r) % d == r
  {
    var n := q * d + r;
    var m := n / d;
    assert n == d * m + n % d;
    if m < q {
      MulSucc(m, d);
      MulMonotone(d, m + 1, q);
      assert false;
    } else if q < m {
      MulSucc(q, d);
      MulMonotone(d, q + 1, m);
      assert false;
    }
  }

  /** The entry at a row-major position. */
  function Unravel(b: nat, c: nat, n: nat): (nat, nat, nat)
    requires b > 0 && c > 0
  {
    (n / c / b, n / c % b, n % c)
  }

  lemma UnravelOffset(b: nat, c: nat, i: nat, j: nat, k: nat)
    requires j < b && k < c
    ensures Unravel(b, c, Offset(b, c, i, j, k)) == (i, j, k)
  {
    DivModOf(i * b + j, c, k);
    DivModOf(i, b, j);
  }

  lemma VolumeVanishes(a: nat, b: nat, c: nat)
    ensures b == 0 || c == 0 ==> Volume(a, b, c) == 0
  {
  }

  lemma OffsetUnravel(a: nat, b: nat, c: nat, n: nat)
    requires n < Volume(a, b, c)
    ensures b > 0 && c > 0
    ensures var (i, j, k) := Unravel(b, c, n); i < a && j < b && k < c && Offset(b, c, i, j, k) == n
  {
    VolumeVanishes(a, b, c);
    var m, k := n / c, n % c;
    assert n == m * c + k;
    var i, j := m / b, m % b;
    assert m == i * b + j;
    if m >= a * b {
      MulMonotone(c, a * b, m);
      assert false;
    }
    if i >= a {
      MulMonotone(b, a, i);
      assert false;
    }
  }

  function At<T>(t: Cube<T>, i: nat, j: nat, k: nat): T
    requires t.Valid() && i < t.d0 && j < t.d1 && k < t.d2
  {
    OffsetInRange(t.d0, t.d1, t.d2, i, j, k);
    t.data[Offset(t.d1, t.d2, i, j, k)]
  }

  /** Two tensors of one shape with the same entries are the same tensor. */
  lemma SameEntries<T>(s: Cube<T>, t: Cube<T>)
    requires s.Valid() && t.Valid() && s.d0 == t.d0 && s.d1 == t.d1 && s.d2 == t.d2
    requires forall i: nat, j: nat, k: nat :: i < s.d0 && j < s.d1 && k < s.d2 ==> At(s, i, j, k) == At(t, i, j, k)
    ensures s == t
  {
    forall n | 0 <= n < |s.data| ensures s.data[n] == t.data[n] {
      OffsetUnravel(s.d0, s.d1, s.d2, n);
      var (i, j, k) := Unravel(s.d1, s.d2, n);
      assert At(s, i, j, k) == At(t, i, j, k);
    }
  }

  // ---------------------------------------------------------------- tensor operations

  /** `view(d0, d1, d2)`: the same data under new dimensions. */
  function View<T>(m: Matrix<T>, d0: nat, d1: nat, d2: nat): (t: Cube<T>)
    requires m.Valid() && Volume(d0, d1, d2) == m.rows * m.cols
    ensures t.Valid()
  {
    Cube(d0, d1, d2, m.data)
  }

  /** `permute(2, 0, 1).contiguous()`. */
  function Permute<T>(t: Cube<T>): (p: Cube<T>)
    requires t.Valid()
    ensures p.Valid() && p.d0 == t.d2 && p.d1 == t.d0 && p.d2 == t.d1
  {
    Cube(t.d2, t.d0, t.d1,
        seq(Volume(t.d2, t.d0, t.d1), n requires 0 <= n < Volume(t.d2, t.d0, t.d1) => PermutedEntry(t, n)))
  }

  function PermutedEntry<T>(t: Cube<T>, n: nat): T
    requires t.Valid() && n < Volume(t.d2, t.d0, t.d1)
  {
    OffsetUnravel(t.d2, t.d0, t.d1, n);
    var (x, o, p) := Unravel(t.d0, t.d1, n);
    At(t, o, p, x)
  }

  lemma PermuteAt<T>(t: Cube<T>, x: nat, o: nat, p: nat)
    requires t.Valid() && x < t.d2 && o < t.d0 && p < t.d1
    ensures At(Permute(t), x, o, p) == At(t, o, p, x)
  {
    OffsetInRange(t.d2, t.d0, t.d1, x, o, p);
    UnravelOffset(t.d0, t.d1, x, o, p);
  }

  ghost predicate SameEntry<T>(a: seq<T>, i: int, b: seq<T>, j: int) {
    0 <= i < |a| && 0 <= j < |b| && a[i] == b[j]
  }

  /** Shards as the all-gather produces them: at least one, all of one shape. */
  ghost predicate SameShape<T>(shards: seq<Cube<T>>, d0: nat, d1: nat, d2: nat) {
    shards != [] && forall s :: 0 <= s < |shards| ==>
        shards[s].Valid() && shards[s].d0 == d0 && shards[s].d1 == d1 && shards[s].d2 == d2
  }

  /** The flat data of each shard. */
  function Datas<S, T>(shards: seq<S>, data: S -> seq<T>): (datas: seq<seq<T>>)
    ensures |datas| == |shards| && forall s :: 0 <= s < |shards| ==> datas[s] == data(shards[s])
  {
    seq(|shards|, s requires 0 <= s < |shards| => data(shards[s]))
  }

  function CubeDatas<T>(shards: seq<Cube<T>>): seq<seq<T>> {
    Datas(shards, (c: Cube<T>) => c.data)
  }

  /** `torch.cat(shards, dim=0)`: leading dimensions add up, data follows data. */
  function CatLeading<T>(shards: seq<Cube<T>>): Cube<T>
    requires shards != []
  {
    Cube(|shards| * shards[0].d0, shards[0].d1, shards[0].d2, Flatten(CubeDatas(shards)))
  }

  lemma CatLeadingValid<T>(shards: seq<Cube<T>>, d0: nat, d1: nat, d2: nat)
    requires SameShape(shards, d0, d1, d2)
    ensures CatLeading(shards).Valid()
  {
    FlattenGridLength(CubeDatas(shards), Volume(d0, d1, d2));
    assert |shards| * Volume(d0, d1, d2) == Volume(|shards| * d0, d1, d2) by {
      MulAssociates(|shards|, d0, d1, d2);
    }
  }

  lemma MulAssociates(s: nat, a: nat, b: nat, c: nat)
    ensures s * (a * b * c) == s * a * b * c
  {
    assert s * (a * b * c) == s * (a * b) * c;
    assert s * (a * b) == s * a * b;
  }

  /** Entry x of the leading dimension of the concatenation is entry x % d0 of shard x / d0. */
  lemma CatLeadingAt<T>(shards: seq<Cube<T>>, d0: nat, d1: nat, d2: nat, s: nat, y: nat, j: nat, k: nat)
    requires SameShape(shards, d0, d1, d2) && s < |shards| && y < d0 && j < d1 && k < d2
    ensures CatLeading(shards).Valid() && s * d0 + y < CatLeading(shards).d0
    ensures At(CatLeading(shards), s * d0 + y, j, k) == At(shards[s], y, j, k)
  {
    CatLeadingValid(shards, d0, d1, d2);
    InnerOffset(|shards|, d0, s, y);
    OffsetInRange(d0, d1, d2, y, j, k);
    FlattenGrid(CubeDatas(shards), Volume(d0, d1, d2), s, Offset(d1, d2, y, j, k));
    BlockOffset(s, d0, d1, d2, y, j, k);
  }

  lemma BlockOffset(s: nat, d0: nat, d1: nat, d2: nat, y: nat, j: nat, k: nat)
    ensures Offset(d1, d2, s * d0 + y, j, k) == s * Volume(d0, d1, d2) + Offset(d1, d2, y, j, k)
  {
    assert (s * d0 + y) * d1 == s * d0 * d1 + y * d1;
    assert (s * d0 * d1 + (y * d1 + j)) * d2 == s * d0 * d1 * d2 + (y * d1 + j) * d2;
    MulAssociates(s, d0, d1, d2);
  }

  /** `torch.cat(shards, dim=2)` of equally wide shards. */
  function CatInner<T>(shards: seq<Cube<T>>, d0: nat, d1: nat, d2: nat): (t: Cube<T>)
    requires SameShape(shards, d0, d1, d2)
    ensures t.Valid() && t.d0 == d0 && t.d1 == d1 && t.d2 == |shards| * d2
  {
    var wide := |shards| * d2;
    Cube(d0, d1, wide, seq(Volume(d0, d1, wide), n requires 0 <= n < Volume(d0, d1, wide) =>
        InnerEntry(shards, d0, d1, d2, n)))
  }

  function InnerEntry<T>(shards: seq<Cube<T>>, d0: nat, d1: nat, d2: nat, n: nat): T
    requires SameShape(shards, d0, d1, d2) && n < Volume(d0, d1, |shards| * d2)
  {
    OffsetUnravel(d0, d1, |shards| * d2, n);
    var (o, p, x) := Unravel(d1, |shards| * d2, n);
    ShardOf(|shards|, d2, x);
    At(shards[x / d2], o, p, x % d2)
  }

  lemma ShardOf(count: nat, width: nat, x: nat)
    requires x < count * width
    ensures width > 0 && x / width < count && x == x / width * width + x % width
  {
    VolumeVanishes(1, count, width);
    var q := x / width;
    assert x == width * q + x % width;
    if q >= count {
      MulMonotone(width, count, q);
      assert false;
    }
  }

  lemma CatInnerAt<T>(shards: seq<Cube<T>>, d0: nat, d1: nat, d2: nat, o: nat, p: nat, s: nat, y: nat)
    requires SameShape(shards, d0, d1, d2) && o < d0 && p < d1 && s < |shards| && y < d2
    ensures s * d2 + y < |shards| * d2
    ensures At(CatInner(shards, d0, d1, d2), o, p, s * d2 + y) == At(shards[s], o, p, y)
  {
    var wide, x := |shards| * d2, s * d2 + y;
    InnerOffset(|shards|, d2, s, y);
    OffsetInRange(d0, d1, wide, o, p, x);
    UnravelOffset(d1, wide, o, p, x);
    DivModOf(s, d2, y);
  }

  // ---------------------------------------------------------------- the two export paths

  /** The per-expert layout that weight sync sends. */
  function Reshape<T>(local: Matrix<T>, kind: Kind, rank: nat): (r: Option<Cube<T>>)
    requires local.Valid() && rank > 0
    ensures r.Some? <==> (if kind == A then local.rows else local.cols) % rank == 0
    ensures r.Some? ==> r.value.Valid()
    ensures r.Some? && kind == A ==>
              r.value.d0 == local.rows / rank && r.value.d1 == rank && r.value.d2 == local.cols
    ensures r.Some? && kind == B ==>
              r.value.d0 == local.cols / rank && r.value.d1 == local.rows && r.value.d2 == rank
  {
    if kind == A then
      if local.rows % rank != 0 then None
      else
        ExactSplit(local.rows, rank);
        Some(View(local, local.rows / rank, rank, local.cols))
    else
      if local.cols % rank != 0 then None
      else
        ExactSplit(local.cols, rank);
        assert Volume(local.rows, rank, local.cols / rank) == local.rows * local.cols by {
          MulAssociates(1, local.rows, rank, local.cols / rank);
        }
        Some(Permute(View(local, local.rows, rank, local.cols / rank)))
  }

  lemma ExactSplit(n: nat, d: nat)
    requires d > 0 && n % d == 0
    ensures n / d * d == n
  {
  }

  /** Row `p` of expert `e` of a reshaped A factor is row `e * rank + p` of the factor. */
  lemma ReshapeEntryA<T>(local: Matrix<T>, rank: nat, e: nat, p: nat, c: nat)
    requires local.Valid() && rank > 0 && local.rows % rank == 0
    requires e < local.rows / rank && p < rank && c < local.cols
    ensures Reshape(local, A, rank).Some?
    ensures SameEntry(
              Reshape(local, A, rank).value.data, (e * rank + p) * local.cols + c,
              local.data, (e * rank + p) * local.cols + c)
  {
    ExactSplit(local.rows, rank);
    OffsetInRange(local.rows / rank, rank, local.cols, e, p, c);
  }

  /** Entry (o, p) of expert `e` of a reshaped B factor is column `p * experts + e` of row `o` of the factor. */
  lemma ReshapeEntryB<T>(local: Matrix<T>, rank: nat, e: nat, o: nat, p: nat)
    requires local.Valid() && rank > 0 && local.cols % rank == 0
    requires e < local.cols / rank && o < local.rows && p < rank
    ensures Reshape(local, B, rank).Some?
    ensures SameEntry(
              Reshape(local, B, rank).value.data, (e * local.rows + o) * rank + p,
              local.data, o * local.cols + p * (local.cols / rank) + e)
  {
    var experts := local.cols / rank;
    ExactSplit(local.cols, rank);
    ReshapeOfB(local, rank, experts);
    PermutedDataB(local, rank, experts, e, o, p);
  }

  lemma PermutedDataB<T>(local: Matrix<T>, rank: nat, experts: nat, e: nat, o: nat, p: nat)
    requires local.Valid() && local.cols == rank * experts
    requires Volume(local.rows, rank, experts) == local.rows * local.cols
    requires e < experts && o < local.rows && p < rank
    ensures SameEntry(
              Permute(View(local, local.rows, rank, experts)).data, (e * local.rows + o) * rank + p,
              local.data, o * local.cols + p * experts + e)
  {
    var view := View(local, local.rows, rank, experts);
    PermuteAt(view, e, o, p);
    OffsetInRange(experts, local.rows, rank, e, o, p);
    OffsetInRange(local.rows, rank, experts, o, p, e);
    RowOffset(o, rank, experts, p);
  }

  lemma RowOffset(o: nat, rank: nat, experts: nat, p: nat)
    ensures (o * rank + p) * experts == o * (rank * experts) + p * experts
  {
    assert o * rank * experts == o * (rank * experts);
  }

  ghost predicate SameMatrices<T>(shards: seq<Matrix<T>>, rows: nat, cols: nat) {
    shards != [] && forall s :: 0 <= s < |shards| ==>
        shards[s].Valid() && shards[s].rows == rows && shards[s].cols == cols
  }

  function MatrixDatas<T>(shards: seq<Matrix<T>>): seq<seq<T>> {
    Datas(shards, (m: Matrix<T>) => m.data)
  }

  /** The global `lora_A` of the checkpoint: expert-major rows stack. */
  function GatherA<T>(shards: seq<Matrix<T>>): Matrix<T>
    requires shards != []
  {
    Matrix(|shards| * shards[0].rows, shards[0].cols, Flatten(MatrixDatas(shards)))
  }

  function Views<T>(shards: seq<Matrix<T>>, d0: nat, d1: nat, d2: nat): (views: seq<Cube<T>>)
    requires SameMatrices(shards, d0, d1 * d2) && Volume(d0, d1, d2) == d0 * (d1 * d2)
    ensures SameShape(views, d0, d1, d2) && |views| == |shards|
    ensures forall s :: 0 <= s < |shards| ==> views[s] == View(shards[s], d0, d1, d2)
  {
    seq(|shards|, s requires 0 <= s < |shards| => View(shards[s], d0, d1, d2))
  }

  lemma VolumeRegroups(a: nat, b: nat, c: nat)
    ensures Volume(a, b, c) == a * (b * c)
  {
  }

  /** The global `lora_B` of the checkpoint: each rank's experts interleave, the expert index fastest. */
  function GatherB<T>(shards: seq<Matrix<T>>, rank: nat, experts: nat): (m: Matrix<T>)
    requires shards != [] && SameMatrices(shards, shards[0].rows, rank * experts)
    ensures m.Valid() && m.rows == shards[0].rows && m.cols == rank * (|shards| * experts)
  {
    var out := shards[0].rows;
    VolumeRegroups(out, rank, experts);
    VolumeRegroups(out, rank, |shards| * experts);
    var joined := CatInner(Views(shards, out, rank, experts), out, rank, experts);
    Matrix(out, rank * (|shards| * experts), joined.data)
  }

  /** Sync path: reshape every shard, then concatenate along the experts. */
  function Reshaped<T>(shards: seq<Matrix<T>>, kind: Kind, rank: nat): (cubes: seq<Cube<T>>)
    requires rank > 0 && forall s :: 0 <= s < |shards| ==> shards[s].Valid() && Reshape(shards[s], kind, rank).Some?
    ensures |cubes| == |shards| && forall s :: 0 <= s < |shards| ==> cubes[s] == Reshape(shards[s], kind, rank).value
  {
    seq(|shards|, s requires 0 <= s < |shards| && shards[s].Valid() && Reshape(shards[s], kind, rank).Some? =>
      Reshape(shards[s], kind, rank).value)
  }

  lemma MultipleOfRank(n: nat, rank: nat)
    requires rank > 0
    ensures n * rank % rank == 0 && n * rank / rank == n
  {
    DivModOf(n, rank, 0);
  }

  lemma StackedSize(n: nat, experts: nat, rank: nat, cols: nat)
    ensures n * (experts * rank) == n * experts * rank
    ensures n * (experts * rank * cols) == n * (experts * rank) * cols
  {
  }

  /** Row `p` of global expert `s * experts + e` is row `p` of expert `e` of shard `s`. */
  ghost predicate ExpertEntryA<T>(
      shards: seq<Matrix<T>>, rank: nat, experts: nat, cols: nat, data: seq<T>, s: nat, e: nat, p: nat, c: nat)
  {
    s < |shards| && e < experts && p < rank && c < cols ==>
      SameEntry(data, ((s * experts + e) * rank + p) * cols + c, shards[s].data, (e * rank + p) * cols + c)
  }

  lemma GatheredEntryA<T>(
      shards: seq<Matrix<T>>, rank: nat, experts: nat, cols: nat, s: nat, e: nat, p: nat, c: nat)
    requires rank > 0 && SameMatrices(shards, experts * rank, cols)
    ensures ExpertEntryA(shards, rank, experts, cols, Flatten(MatrixDatas(shards)), s, e, p, c)
  {
    if s < |shards| && e < experts && p < rank && c < cols {
      OffsetInRange(experts, rank, cols, e, p, c);
      FlattenGridLength(MatrixDatas(shards), Volume(experts, rank, cols));
      FlattenGrid(MatrixDatas(shards), Volume(experts, rank, cols), s, Offset(rank, cols, e, p, c));
      BlockOffset(s, experts, rank, cols, e, p, c);
      InnerOffset(|shards|, Volume(experts, rank, cols), s, Offset(rank, cols, e, p, c));
    }
  }

  /** Expert-major A: both paths lay the data out the same way. */
  lemma PathsAgreeA<T>(shards: seq<Matrix<T>>, rank: nat, experts: nat, cols: nat)
    requires rank > 0 && SameMatrices(shards, experts * rank, cols)
    ensures GatherA(shards).Valid()
    ensures forall s :: 0 <= s < |shards| ==> Reshape(shards[s], A, rank).Some?
    ensures Reshape(GatherA(shards), A, rank) == Some(CatLeading(Reshaped(shards, A, rank)))
    ensures
      var global := CatLeading(Reshaped(shards, A, rank));
      && global.d0 == |shards| * experts && global.d1 == rank && global.d2 == cols
      && forall s: nat, e: nat, p: nat, c: nat :: ExpertEntryA(shards, rank, experts, cols, global.data, s, e, p, c)
  {
    MultipleOfRank(experts, rank);
    MultipleOfRank(|shards| * experts, rank);
    StackedSize(|shards|, experts, rank, cols);
    FlattenGridLength(MatrixDatas(shards), experts * rank * cols);
    assert GatherA(shards).rows == |shards| * experts * rank;
    var cubes := Reshaped(shards, A, rank);
    assert cubes[0] == Reshape(shards[0], A, rank).value;
    assert CubeDatas(cubes) == MatrixDatas(shards);
    forall s: nat, e: nat, p: nat, c: nat
      ensures ExpertEntryA(shards, rank, experts, cols, Flatten(MatrixDatas(shards)), s, e, p, c)
    {
      GatheredEntryA(shards, rank, experts, cols, s, e, p, c);
    }
  }

  /** What the reshape of a B factor is when it divides. */
  lemma ReshapeOfB<T>(local: Matrix<T>, rank: nat, experts: nat)
    requires local.Valid() && rank > 0 && local.cols == rank * experts
    ensures Volume(local.rows, rank, experts) == local.rows * local.cols
    ensures Reshape(local, B, rank) == Some(Permute(View(local, local.rows, rank, experts)))
  {
    MultipleOfRank(experts, rank);
    VolumeRegroups(local.rows, rank, experts);
  }

  /** Entry (o, p) of global expert `s * experts + e` is column `p * experts + e` of row `o` of shard `s`. */
  ghost predicate ExpertEntryB<T>(
      shards: seq<Matrix<T>>, rank: nat, experts: nat, rows: nat, data: seq<T>, s: nat, e: nat, o: nat, p: nat)
  {
    s < |shards| && e < experts && o < rows && p < rank ==>
      SameEntry(
        data, ((s * experts + e) * rows + o) * rank + p,
        shards[s].data, o * (rank * experts) + p * experts + e)
  }

  lemma SyncedEntryB<T>(
      shards: seq<Matrix<T>>, rank: nat, experts: nat, rows: nat, cubes: seq<Cube<T>>, s: nat, e: nat, o: nat, p: nat)
    requires rank > 0 && SameMatrices(shards, rows, rank * experts) && |cubes| == |shards|
    requires Volume(rows, rank, experts) == rows * (rank * experts)
    requires forall q :: 0 <= q < |shards| ==> cubes[q] == Permute(View(shards[q], rows, rank, experts))
    ensures ExpertEntryB(shards, rank, experts, rows, CatLeading(cubes).data, s, e, o, p)
  {
    if s < |shards| && e < experts && o < rows && p < rank {
      PermutedDataB(shards[s], rank, experts, e, o, p);
      CatLeadingAt(cubes, experts, rows, rank, s, e, o, p);
      OffsetInRange(|shards| * experts, rows, rank, s * experts + e, o, p);
    }
  }

  /** Interleaved B: gathering then splitting by expert is splitting by expert then concatenating. */
  lemma PathsAgreeB<T>(shards: seq<Matrix<T>>, rank: nat, experts: nat)
    requires rank > 0 && shards != [] && SameMatrices(shards, shards[0].rows, rank * experts)
    ensures forall s :: 0 <= s < |shards| ==> Reshape(shards[s], B, rank).Some?
    ensures Reshape(GatherB(shards, rank, experts), B, rank) == Some(CatLeading(Reshaped(shards, B, rank)))
    ensures
      var global, rows := CatLeading(Reshaped(shards, B, rank)), shards[0].rows;
      && global.d0 == |shards| * experts && global.d1 == rows && global.d2 == rank
      && forall s: nat, e: nat, o: nat, p: nat :: ExpertEntryB(shards, rank, experts, rows, global.data, s, e, o, p)
  {
    var out, wide := shards[0].rows, |shards| * experts;
    var gathered := GatherB(shards, rank, experts);
    ReshapeOfB(gathered, rank, wide);
    forall s | 0 <= s < |shards|
      ensures Volume(out, rank, experts) == out * (rank * experts)
      ensures Reshape(shards[s], B, rank) == Some(Permute(View(shards[s], out, rank, experts)))
    {
      ReshapeOfB(shards[s], rank, experts);
    }
    VolumeRegroups(out, rank, experts);
    var cubes := Reshaped(shards, B, rank);
    CubesAgree(shards, rank, experts, cubes, Permute(View(gathered, out, rank, wide)));
    forall s: nat, e: nat, o: nat, p: nat
      ensures ExpertEntryB(shards, rank, experts, out, CatLeading(cubes).data, s, e, o, p)
    {
      SyncedEntryB(shards, rank, experts, out, cubes, s, e, o, p);
    }
  }

  lemma CubesAgree<T>(shards: seq<Matrix<T>>, rank: nat, experts: nat, cubes: seq<Cube<T>>, global: Cube<T>)
    requires rank > 0 && shards != [] && SameMatrices(shards, shards[0].rows, rank * experts)
    requires Volume(shards[0].rows, rank, experts) == shards[0].rows * (rank * experts)
    requires Volume(shards[0].rows, rank, |shards| * experts) == shards[0].rows * (rank * (|shards| * experts))
    requires |cubes| == |shards|
    requires forall s :: 0 <= s < |shards| ==> cubes[s] == Permute(View(shards[s], shards[0].rows, rank, experts))
    requires global == Permute(View(GatherB(shards, rank, experts), shards[0].rows, rank, |shards| * experts))
    ensures global == CatLeading(cubes)
  {
    var out := shards[0].rows;
    assert SameShape(cubes, experts, out, rank);
    CatLeadingValid(cubes, experts, out, rank);
    var synced := CatLeading(cubes);
    forall x: nat, o: nat, p: nat | x < |shards| * experts && o < out && p < rank
      ensures At(global, x, o, p) == At(synced, x, o, p)
    {
      EntryAgrees(shards, rank, experts, cubes, x, o, p);
    }
    SameEntries(global, synced);
  }

  lemma EntryAgrees<T>(shards: seq<Matrix<T>>, rank: nat, experts: nat, cubes: seq<Cube<T>>, x: nat, o: nat, p: nat)
    requires rank > 0 && shards != [] && SameMatrices(shards, shards[0].rows, rank * experts)
    requires x < |shards| * experts && o < shards[0].rows && p < rank
    requires Volume(shards[0].rows, rank, experts) == shards[0].rows * (rank * experts)
    requires Volume(shards[0].rows, rank, |shards| * experts) == shards[0].rows * (rank * (|shards| * experts))
    requires |cubes| == |shards| && SameShape(cubes, experts, shards[0].rows, rank)
    requires forall s :: 0 <= s < |shards| ==> cubes[s] == Permute(View(shards[s], shards[0].rows, rank, experts))
    ensures CatLeading(cubes).Valid() && x < CatLeading(cubes).d0
    ensures
      var view := View(GatherB(shards, rank, experts), shards[0].rows, rank, |shards| * experts);
      At(Permute(view), x, o, p) == At(CatLeading(cubes), x, o, p)
  {
    ShardOf(|shards|, experts, x);
    var s, y := x / experts, x % experts;
    GatheredEntry(shards, rank, experts, x, s, y, o, p);
    StackedEntry(Views(shards, shards[0].rows, rank, experts), cubes, experts, shards[0].rows, rank, s, y, o, p);
  }

  /** Global expert `s * experts + y` of the gathered factor is expert `y` of shard `s`. */
  lemma GatheredEntry<T>(shards: seq<Matrix<T>>, rank: nat, experts: nat, x: nat, s: nat, y: nat, o: nat, p: nat)
    requires rank > 0 && shards != [] && SameMatrices(shards, shards[0].rows, rank * experts)
    requires s < |shards| && y < experts && x == s * experts + y < |shards| * experts && o < shards[0].rows && p < rank
    requires Volume(shards[0].rows, rank, experts) == shards[0].rows * (rank * experts)
    requires Volume(shards[0].rows, rank, |shards| * experts) == shards[0].rows * (rank * (|shards| * experts))
    ensures
      var view := View(GatherB(shards, rank, experts), shards[0].rows, rank, |shards| * experts);
      At(Permute(view), x, o, p) == At(View(shards[s], shards[0].rows, rank, experts), o, p, y)
  {
    var out := shards[0].rows;
    PermuteAt(View(GatherB(shards, rank, experts), out, rank, |shards| * experts), x, o, p);
    CatInnerAt(Views(shards, out, rank, experts), out, rank, experts, o, p, s, y);
  }

  /** Stacking the permuted views puts that expert in the same place. */
  lemma StackedEntry<T>(
      views: seq<Cube<T>>, cubes: seq<Cube<T>>, experts: nat, out: nat, rank: nat, s: nat, y: nat, o: nat, p: nat)
    requires SameShape(views, out, rank, experts) && SameShape(cubes, experts, out, rank) && |views| == |cubes|
    requires forall q :: 0 <= q < |cubes| ==> cubes[q] == Permute(views[q])
    requires s < |cubes| && y < experts && o < out && p < rank
    ensures CatLeading(cubes).Valid() && CatLeading(cubes).d1 == out && CatLeading(cubes).d2 == rank
    ensures s * experts + y < CatLeading(cubes).d0 && views[s].Valid()
    ensures At(CatLeading(cubes), s * experts + y, o, p) == At(views[s], o, p, y)
  {
    CatLeadingAt(cubes, experts, out, rank, s, y, o, p);
    PermuteAt(views[s], y, o, p);
  }
}
