/** Moving every row's real tokens into its leading columns before packing
    (arctic_platform/integrations/_cortex_shared.py, _left_align_batch). */
module LeftAlign {
  import opened Basics
  import opened Packing

  const LABEL_PAD: int := -100

  /** The padding sentinel of one tensor. */
  function PadValue(name: string): int {
    if name == "labels" then LABEL_PAD else 0
  }

  // ---------------------------------------------------------------- the column order of one row

  function Key(mask: seq<bool>, c: nat): nat {
    if c < |mask| && mask[c] then 0 else 1
  }

  /** Real columns first, both kinds in column order: a stable argsort of `~mask`. */
  function ValidFirst(mask: seq<bool>): (nat, nat) -> bool {
    (a: nat, b: nat) => Key(mask, a) < Key(mask, b) || (Key(mask, a) == Key(mask, b) && a <= b)
  }

  function ColumnOrder(mask: seq<bool>): seq<nat> {
    SortBy(ValidFirst(mask), Range(|mask|))
  }

  /** Columns below `n` whose mask entry is `want`, ascending. */
  ghost function Columns(mask: seq<bool>, want: bool, n: nat): (cols: seq<nat>)
    requires n <= |mask|
    ensures forall i :: 0 <= i < |cols| ==> cols[i] < n && mask[cols[i]] == want
  {
    if n == 0 then [] else Columns(mask, want, n - 1) + (if mask[n - 1] == want then [n - 1] else [])
  }

  /** Insertion passes over everything that must come after `x` and stops behind the rest. */
  lemma {:induction false} InsertBetween<T>(le: (T, T) -> bool, head: seq<T>, tail: seq<T>, x: T)
    requires head == [] || le(head[|head| - 1], x)
    requires forall i :: 0 <= i < |tail| ==> !le(tail[i], x)
    ensures Insert(le, head + tail, x) == head + [x] + tail
    decreases |tail|
  {
    var s := head + tail;
    if tail == [] {
      assert s == head;
    } else {
      var k := |tail| - 1;
      assert s[|s| - 1] == tail[k] && s[..|s| - 1] == head + tail[..k];
      InsertBetween(le, head, tail[..k], x);
      assert head + [x] + tail == (head + [x] + tail[..k]) + [tail[k]];
    }
  }

  lemma InsertColumn(mask: seq<bool>, reals: seq<nat>, pads: seq<nat>, k: nat)
    requires k < |mask|
    requires forall i :: 0 <= i < |reals| ==> reals[i] < k && mask[reals[i]]
    requires forall i :: 0 <= i < |pads| ==> pads[i] < k && !mask[pads[i]]
    ensures Insert(ValidFirst(mask), reals + pads, k) == if mask[k] then reals + [k] + pads else reals + (pads + [k])
  {
    if mask[k] {
      InsertBetween<nat>(ValidFirst(mask), reals, pads, k);
    } else {
      var s := reals + pads;
      assert s + [k] == reals + (pads + [k]);
      assert s != [] ==> ValidFirst(mask)(s[|s| - 1], k);
    }
  }

  /** The stable sort is: all real columns in order, then all pad columns in order. */
  lemma {:induction false} SortIsPartition(mask: seq<bool>, n: nat)
    requires n <= |mask|
    ensures SortBy(ValidFirst(mask), Range(n)) == Columns(mask, true, n) + Columns(mask, false, n)
    decreases n
  {
    if n > 0 {
      var k: nat := n - 1;
      SortIsPartition(mask, k);
      assert Range(n)[..k] == Range(k) && Range(n)[k] == k;
      InsertColumn(mask, Columns(mask, true, k), Columns(mask, false, k), k);
    }
  }

  lemma {:induction false} ColumnsCount(mask: seq<bool>, n: nat)
    requires n <= |mask|
    ensures |Columns(mask, true, n)| == CountTrue(mask[..n])
    ensures |Columns(mask, true, n)| + |Columns(mask, false, n)| == n
    decreases n
  {
    if n > 0 {
      ColumnsCount(mask, n - 1);
      assert mask[..n][..n - 1] == mask[..n - 1];
    }
  }

  lemma ColumnOrderShape(mask: seq<bool>)
    ensures
      var order := ColumnOrder(mask);
      && |order| == |mask|
      && (forall c :: 0 <= c < |order| ==> order[c] < |mask|)
      && |Columns(mask, true, |mask|)| == CountTrue(mask)
      && (forall c :: 0 <= c < CountTrue(mask) ==> order[c] == Columns(mask, true, |mask|)[c])
  {
    SortIsPartition(mask, |mask|);
    ColumnsCount(mask, |mask|);
    assert mask[..|mask|] == mask;
  }

  // ---------------------------------------------------------------- moving a tensor

  /** The originally masked-in entries of a row, in order. */
  ghost function MaskedIn<T>(row: seq<T>, mask: seq<bool>): seq<T>
    requires |row| == |mask|
  {
    if row == [] then []
    else
      var k := |row| - 1;
      MaskedIn(row[..k], mask[..k]) + (if mask[k] then [row[k]] else [])
  }

  lemma {:induction false} MaskedInIsColumns<T>(row: seq<T>, mask: seq<bool>, n: nat)
    requires |row| == |mask| && n <= |mask|
    ensures |MaskedIn(row[..n], mask[..n])| == |Columns(mask, true, n)|
    ensures forall c :: 0 <= c < |Columns(mask, true, n)| ==>
            MaskedIn(row[..n], mask[..n])[c] == row[Columns(mask, true, n)[c]]
    decreases n
  {
    if n > 0 {
      MaskedInIsColumns(row, mask, n - 1);
      assert row[..n][..n - 1] == row[..n - 1] && mask[..n][..n - 1] == mask[..n - 1];
    }
  }

  /** Gather a row through the column order, then overwrite the tail with the pad value. */
  function MoveRow<T>(row: seq<T>, mask: seq<bool>, pad: T): (moved: seq<T>)
    requires |row| == |mask|
    ensures |moved| == |row|
  {
    ColumnOrderShape(mask);
    var order := ColumnOrder(mask);
    seq(|row|, c requires 0 <= c < |row| => if c < CountTrue(mask) then row[order[c]] else pad)
  }

  /** The moved row is the masked-in entries followed by padding. */
  lemma MoveRowIsMaskedIn<T>(row: seq<T>, mask: seq<bool>, pad: T)
    requires |row| == |mask|
    ensures |MaskedIn(row, mask)| == CountTrue(mask)
    ensures MoveRow(row, mask, pad) == MaskedIn(row, mask) + Repeat(pad, |row| - CountTrue(mask))
  {
    ColumnOrderShape(mask);
    MaskedInIsColumns(row, mask, |mask|);
    assert row[..|mask|] == row && mask[..|mask|] == mask;
  }

  /** On a row that is already aligned the masked-in entries are its leading columns. */
  lemma {:induction false} PrefixIsMaskedIn<T>(row: seq<T>, mask: seq<bool>, n: nat)
    requires |row| == |mask| && n <= |mask| && forall c :: 0 <= c < |mask| ==> (mask[c] <==> c < n)
    ensures MaskedIn(row, mask) == row[..n] && CountTrue(mask) == n
    decreases |mask|
  {
    if mask != [] {
      var k := |mask| - 1;
      if n == |mask| {
        PrefixIsMaskedIn(row[..k], mask[..k], k);
        assert row == row[..k] + [row[k]];
      } else {
        PrefixIsMaskedIn(row[..k], mask[..k], n);
        assert row[..k][..n] == row[..n];
      }
    }
  }

  function ValidRow(mask: seq<bool>): (valid: seq<bool>)
    ensures |valid| == |mask| && forall c :: 0 <= c < |mask| ==> (valid[c] <==> c < CountTrue(mask))
  {
    seq(|mask|, c => c < CountTrue(mask))
  }

  lemma ValidRowIsPrefix(mask: seq<bool>)
    ensures CountTrue(ValidRow(mask)) == CountTrue(mask) && PrefixRow(ValidRow(mask))
  {
    PrefixIsMaskedIn(ValidRow(mask), ValidRow(mask), CountTrue(mask));
  }

  // ---------------------------------------------------------------- the batch

  function ValidMask(mask: Grid<bool>): Grid<bool> {
    Grid(seq(|mask.rows|, r requires 0 <= r < |mask.rows| => ValidRow(mask.rows[r])), mask.width)
  }

  /** A tensor that does not have the mask's shape is carried through untouched. */
  function Move(name: string, t: Grid<int>, mask: Grid<bool>): (moved: Grid<int>)
    requires t.Valid() && mask.Valid() && (t.width == mask.width ==> |t.rows| == |mask.rows|)
    ensures moved.Valid() && moved.width == t.width && |moved.rows| == |t.rows|
  {
    if t.width != mask.width then t
    else Grid(seq(|t.rows|, r requires 0 <= r < |t.rows| => MoveRow(t.rows[r], mask.rows[r], PadValue(name))), t.width)
  }

  ghost predicate Movable(tensors: map<string, Grid<int>>, mask: Grid<bool>) {
    forall k :: k in tensors ==>
        tensors[k].Valid() && (tensors[k].width == mask.width ==> |tensors[k].rows| == |mask.rows|)
  }

  /** Every full-width tensor is gathered through one column order per row. */
  function LeftAlignBatch(tensors: map<string, Grid<int>>, mask: Grid<bool>): (r: (map<string, Grid<int>>, Grid<bool>))
    requires mask.Valid() && Movable(tensors, mask)
    ensures r.0.Keys == tensors.Keys
  {
    if LeftAligned(mask) then (tensors, mask)
    else (map k | k in tensors :: Move(k, tensors[k], mask), ValidMask(mask))
  }

  /** The masked-in entries of all rows, row after row. */
  ghost function AllMaskedIn(rows: seq<seq<int>>, masks: seq<seq<bool>>): seq<int>
    requires |rows| == |masks| && forall r :: 0 <= r < |rows| ==> |rows[r]| == |masks[r]|
  {
    if rows == [] then []
    else
      var k := |rows| - 1;
      AllMaskedIn(rows[..k], masks[..k]) + MaskedIn(rows[k], masks[k])
  }

  lemma {:induction false} PackedRowsAreMaskedIn(
      rows: seq<seq<int>>, masks: seq<seq<bool>>, out: seq<seq<int>>, lengths: seq<nat>)
    requires |rows| == |masks| == |out| == |lengths|
    requires forall r :: 0 <= r < |rows| ==> |rows[r]| == |masks[r]|
    requires forall r :: 0 <= r < |rows| ==>
             lengths[r] <= |out[r]| && out[r][..lengths[r]] == MaskedIn(rows[r], masks[r])
    ensures ValidTokens(out, lengths) == AllMaskedIn(rows, masks)
    decreases |rows|
  {
    if rows != [] {
      var k := |rows| - 1;
      PackedRowsAreMaskedIn(rows[..k], masks[..k], out[..k], lengths[..k]);
    }
  }

  /** A batch that is aligned already stays as it is. Otherwise each row of a full-width tensor becomes its
      masked-in entries, then -100 in `labels` and 0 in any other tensor. */
  lemma AlignedRow(tensors: map<string, Grid<int>>, mask: Grid<bool>, name: string, r: nat)
    requires mask.Valid() && Movable(tensors, mask) && name in tensors && r < |tensors[name].rows|
    ensures
      var (moved, aligned) := LeftAlignBatch(tensors, mask);
      && moved[name].width == tensors[name].width && |moved[name].rows| == |tensors[name].rows|
      && (LeftAligned(mask) || tensors[name].width != mask.width ==> moved[name] == tensors[name])
      && (!LeftAligned(mask) && tensors[name].width == mask.width ==>
            var row, kept := tensors[name].rows[r], CountTrue(mask.rows[r]);
            && kept <= |row|
            && moved[name].rows[r]
            == MaskedIn(row, mask.rows[r]) + Repeat(if name == "labels" then -100 else 0, |row| - kept))
  {
    if !LeftAligned(mask) && tensors[name].width == mask.width {
      ColumnOrderShape(mask.rows[r]);
      MoveRowIsMaskedIn(tensors[name].rows[r], mask.rows[r], PadValue(name));
    }
  }

  /** The aligned mask passes the packer's check and keeps every row's length. */
  lemma AlignedMaskPacks(tensors: map<string, Grid<int>>, mask: Grid<bool>)
    requires mask.Valid() && Movable(tensors, mask)
    ensures
      var aligned := LeftAlignBatch(tensors, mask).1;
      aligned.Valid() && LeftAligned(aligned) && RowLengths(aligned) == RowLengths(mask) && aligned.width == mask.width
  {
    if !LeftAligned(mask) {
      forall r | 0 <= r < |mask.rows|
        ensures PrefixRow(ValidMask(mask).rows[r]) && CountTrue(ValidMask(mask).rows[r]) == CountTrue(mask.rows[r])
      {
        ValidRowIsPrefix(mask.rows[r]);
      }
    }
  }

  /** Packing an aligned full-width tensor yields its originally masked-in entries in row order. */
  lemma AlignThenPack(tensors: map<string, Grid<int>>, mask: Grid<bool>, name: string)
    requires mask.Valid() && Movable(tensors, mask) && name in tensors && tensors[name].width == mask.width
    ensures
      var (moved, aligned) := LeftAlignBatch(tensors, mask);
      && moved[name].Valid() && moved[name].width == mask.width && Fit(RowLengths(aligned), mask.width)
      && |RowLengths(aligned)| == |moved[name].rows| == |mask.rows|
      && ValidTokens(moved[name].rows, RowLengths(aligned)) == AllMaskedIn(tensors[name].rows, mask.rows)
  {
    var (moved, aligned) := LeftAlignBatch(tensors, mask);
    AlignedMaskPacks(tensors, mask);
    var rows, out, lengths := tensors[name].rows, moved[name].rows, RowLengths(mask);
    forall r | 0 <= r < |rows|
      ensures lengths[r] <= |out[r]| && out[r][..lengths[r]] == MaskedIn(rows[r], mask.rows[r])
    {
      if LeftAligned(mask) {
        assert PrefixRow(mask.rows[r]);
        PrefixIsMaskedIn(rows[r], mask.rows[r], lengths[r]);
      } else {
        assert out[r] == MoveRow(rows[r], mask.rows[r], PadValue(name));
        MoveRowIsMaskedIn(rows[r], mask.rows[r], PadValue(name));
      }
    }
    PackedRowsAreMaskedIn(rows, mask.rows, out, lengths);
  }
}
