/** Sequence vocabulary shared by every module: ranges, sums, permutations and the one
    sort that models Python's `sorted`. */
module Basics {

  datatype Option<+T> = None | Some(value: T)

  datatype Result<+T, +E> = Ok(value: T) | Err(error: E)

  /** Python's `range(n)` as a list. */
  function Range(n: nat): (s: seq<nat>)
    ensures |s| == n
    ensures forall i :: 0 <= i < n ==> s[i] == i
  {
    seq(n, i => i)
  }

  /** `rows` lists every index below `n` exactly once: the source's test
      `sorted(rows) == list(range(n))`. */
  predicate Perm(rows: seq<nat>, n: nat) {
    multiset(rows) == multiset(Range(n))
  }

  ghost predicate Distinct<T>(s: seq<T>) {
    forall i, j :: 0 <= i < j < |s| ==> s[i] != s[j]
  }

  /** Total indexing: positions outside `s` weigh zero. */
  function At(s: seq<int>, i: int): int {
    if 0 <= i < |s| then s[i] else 0
  }

  /** Total weight of the listed rows. */
  function Load(weights: seq<int>, rows: seq<nat>): int {
    if rows == [] then 0
    else Load(weights, rows[..|rows| - 1]) + At(weights, rows[|rows| - 1])
  }

  function Sum(s: seq<int>): int {
    if s == [] then 0 else Sum(s[..|s| - 1]) + s[|s| - 1]
  }

  function Flatten<T>(parts: seq<seq<T>>): seq<T> {
    if parts == [] then [] else Flatten(parts[..|parts| - 1]) + parts[|parts| - 1]
  }

  /** How many entries each part has. */
  function Sizes<T>(parts: seq<seq<T>>): (sizes: seq<nat>)
    ensures |sizes| == |parts| && forall p :: 0 <= p < |parts| ==> sizes[p] == |parts[p]|
  {
    seq(|parts|, p requires 0 <= p < |parts| => |parts[p]|)
  }

  // ---------------------------------------------------------------- loads

  lemma {:induction false} LoadAppend(weights: seq<int>, a: seq<nat>, b: seq<nat>)
    ensures Load(weights, a + b) == Load(weights, a) + Load(weights, b)
    decreases |b|
  {
    if b == [] {
      assert a + b == a;
    } else {
      var k := |b| - 1;
      assert (a + b)[..|a + b| - 1] == a + b[..k];
      LoadAppend(weights, a, b[..k]);
    }
  }

  lemma LoadOne(weights: seq<int>, row: nat)
    ensures Load(weights, [row]) == At(weights, row)
  {
    assert [row][..0] == [];
  }

  lemma LoadRemove(weights: seq<int>, rows: seq<nat>, i: nat)
    requires i < |rows|
    ensures Load(weights, rows) == Load(weights, rows[..i] + rows[i + 1..]) + At(weights, rows[i])
  {
    LoadAppend(weights, rows[..i], rows[i + 1..]);
    LoadAppend(weights, rows[..i], [rows[i]] + rows[i + 1..]);
    LoadAppend(weights, [rows[i]], rows[i + 1..]);
    LoadOne(weights, rows[i]);
    assert rows == rows[..i] + ([rows[i]] + rows[i + 1..]);
  }

  lemma DropOne<T>(a: seq<T>, b: seq<T>, k: nat, i: nat)
    requires k == |a| - 1 && i < |b| && a[k] == b[i] && multiset(a) == multiset(b)
    ensures multiset(a[..k]) == multiset(b[..i] + b[i + 1..])
  {
    assert a == a[..k] + [a[k]];
    assert b == b[..i] + ([b[i]] + b[i + 1..]);
    TakeOut(b[..i], [b[i]], b[i + 1..]);
    Cancel(multiset(a[..k]), multiset(b[..i] + b[i + 1..]), multiset([a[k]]));
  }

  /** A load depends only on which rows are listed, not on their order. */
  lemma {:induction false} LoadPermutation(weights: seq<int>, a: seq<nat>, b: seq<nat>)
    requires multiset(a) == multiset(b)
    ensures Load(weights, a) == Load(weights, b)
    decreases |a|
  {
    if a == [] {
      assert |multiset(b)| == 0;
    } else {
      var k := |a| - 1;
      assert a[k] in multiset(a);
      assert a[k] in multiset(b);
      var i :| 0 <= i < |b| && b[i] == a[k];
      DropOne(a, b, k, i);
      LoadPermutation(weights, a[..k], b[..i] + b[i + 1..]);
      LoadRemove(weights, b, i);
    }
  }

  /** Pointwise larger weights give a larger load. */
  lemma {:induction false} LoadMonotone(low: seq<int>, high: seq<int>, rows: seq<nat>)
    requires forall i :: i in rows ==> At(low, i) <= At(high, i)
    ensures Load(low, rows) <= Load(high, rows)
    decreases |rows|
  {
    if rows != [] {
      LoadMonotone(low, high, rows[..|rows| - 1]);
    }
  }

  lemma LoadNonNegative(weights: seq<int>, rows: seq<nat>)
    requires forall i :: 0 <= i < |weights| ==> weights[i] >= 0
    ensures Load(weights, rows) >= 0
    decreases |rows|
  {
    if rows != [] {
      LoadNonNegative(weights, rows[..|rows| - 1]);
    }
  }

  lemma {:induction false} LoadRangeIsSum(weights: seq<int>, n: nat)
    requires n <= |weights|
    ensures Load(weights, Range(n)) == Sum(weights[..n])
    decreases n
  {
    if n > 0 {
      assert Range(n)[..n - 1] == Range(n - 1);
      assert weights[..n][..n - 1] == weights[..n - 1];
      LoadRangeIsSum(weights, n - 1);
    }
  }

  lemma {:induction false} SumAppend(a: seq<int>, b: seq<int>)
    ensures Sum(a + b) == Sum(a) + Sum(b)
    decreases |b|
  {
    if b == [] {
      assert a + b == a;
    } else {
      var k := |b| - 1;
      assert (a + b)[..|a + b| - 1] == a + b[..k];
      SumAppend(a, b[..k]);
    }
  }

  lemma SumOne(x: int)
    ensures Sum([x]) == x
  {
    assert [x][..0] == [];
  }

  lemma {:induction false} SumUpdate(s: seq<int>, i: nat, x: int)
    requires i < |s|
    ensures Sum(s[i := x]) == Sum(s) - s[i] + x
    decreases |s|
  {
    var k := |s| - 1;
    if i == k {
      assert s[i := x][..k] == s[..k];
    } else {
      assert s[i := x][..k] == s[..k][i := x];
      SumUpdate(s[..k], i, x);
    }
  }

  /** Pointwise smaller sequences have smaller sums, and equal sums only if they are equal. */
  lemma {:induction false} SumTight(low: seq<int>, high: seq<int>)
    requires |low| == |high| && forall i :: 0 <= i < |low| ==> low[i] <= high[i]
    ensures Sum(low) <= Sum(high)
    ensures Sum(low) == Sum(high) ==> low == high
    decreases |low|
  {
    if low != [] {
      SumTight(low[..|low| - 1], high[..|low| - 1]);
    }
  }

  lemma {:induction false} SumBound(s: seq<int>, bound: int)
    requires forall i :: 0 <= i < |s| ==> s[i] <= bound
    ensures Sum(s) <= |s| * bound
    ensures Sum(s) == |s| * bound ==> forall i :: 0 <= i < |s| ==> s[i] == bound
    decreases |s|
  {
    if s != [] {
      SumBound(s[..|s| - 1], bound);
    }
  }

  lemma {:induction false} SumConstant(s: seq<int>, x: int)
    requires forall i :: 0 <= i < |s| ==> s[i] == x
    ensures Sum(s) == |s| * x
    decreases |s|
  {
    if s != [] {
      SumConstant(s[..|s| - 1], x);
    }
  }

  // ---------------------------------------------------------------- flattening

  lemma {:induction false} FlattenAppend<T>(a: seq<seq<T>>, b: seq<seq<T>>)
    ensures Flatten(a + b) == Flatten(a) + Flatten(b)
    decreases |b|
  {
    if b == [] {
      assert a + b == a;
    } else {
      var k := |b| - 1;
      assert (a + b)[..|a + b| - 1] == a + b[..k];
      FlattenAppend(a, b[..k]);
    }
  }

  lemma FlattenOne<T>(part: seq<T>)
    ensures Flatten([part]) == part
  {
    assert [part][..0] == [];
  }

  lemma Exchange<T>(a: multiset<T>, b: multiset<T>, c: multiset<T>, d: multiset<T>, more: multiset<T>)
    requires a + c == b + d
    ensures (a + more) + c == (b + more) + d
  {
    assert (a + more) + c == (a + c) + more;
    assert (b + more) + d == (b + d) + more;
  }

  /** Replacing one part changes the content of a flattening by exactly that part. */
  lemma {:induction false} FlattenUpdate<T>(parts: seq<seq<T>>, i: nat, part: seq<T>)
    requires i < |parts|
    ensures multiset(Flatten(parts[i := part])) + multiset(parts[i]) == multiset(Flatten(parts)) + multiset(part)
    decreases |parts|
  {
    var k := |parts| - 1;
    if i == k {
      assert parts[i := part][..k] == parts[..k];
    } else {
      assert parts[i := part][..k] == parts[..k][i := part];
      FlattenUpdate(parts[..k], i, part);
      var a, b, last := Flatten(parts[..k][i := part]), Flatten(parts[..k]), parts[k];
      assert Flatten(parts[i := part]) == a + last && Flatten(parts) == b + last;
      assert parts[..k][i] == parts[i];
      Exchange(multiset(a), multiset(b), multiset(parts[i]), multiset(part), multiset(last));
    }
  }

  lemma Cancel<T>(a: multiset<T>, b: multiset<T>, c: multiset<T>)
    requires a + c == b + c
    ensures a == b
  {
    assert a == (a + c) - c;
    assert b == (b + c) - c;
  }

  /** Appending to one part adds exactly what was appended. */
  lemma FlattenGrow<T>(parts: seq<seq<T>>, i: nat, more: seq<T>)
    requires i < |parts|
    ensures multiset(Flatten(parts[i := parts[i] + more])) == multiset(Flatten(parts)) + multiset(more)
  {
    FlattenUpdate(parts, i, parts[i] + more);
    var grown, before, part := multiset(Flatten(parts[i := parts[i] + more])), multiset(Flatten(parts)),
        multiset(parts[i]);
    assert multiset(parts[i] + more) == part + multiset(more);
    assert before + (part + multiset(more)) == (before + multiset(more)) + part;
    Cancel(grown, before + multiset(more), part);
  }

  /** The parts listed by `rows`, in that order. */
  function Pick<T>(parts: seq<seq<T>>, rows: seq<nat>): seq<seq<T>>
    requires forall i :: 0 <= i < |rows| ==> rows[i] < |parts|
  {
    seq(|rows|, i requires 0 <= i < |rows| => parts[rows[i]])
  }

  function Multiplicity<T(==)>(parts: seq<seq<T>>, x: T): seq<int> {
    seq(|parts|, g requires 0 <= g < |parts| => multiset(parts[g])[x])
  }

  lemma {:induction false} PickMultiplicity<T>(parts: seq<seq<T>>, rows: seq<nat>, x: T)
    requires forall i :: 0 <= i < |rows| ==> rows[i] < |parts|
    ensures multiset(Flatten(Pick(parts, rows)))[x] == Load(Multiplicity(parts, x), rows)
    decreases |rows|
  {
    if rows != [] {
      var k := |rows| - 1;
      PickMultiplicity(parts, rows[..k], x);
      assert Pick(parts, rows)[..k] == Pick(parts, rows[..k]);
    }
  }

  /** Taking the parts in another order keeps their content. */
  lemma PickPermutation(parts: seq<seq<nat>>, rows: seq<nat>)
    requires Perm(rows, |parts|) && forall i :: 0 <= i < |rows| ==> rows[i] < |parts|
    ensures multiset(Flatten(Pick(parts, rows))) == multiset(Flatten(parts))
  {
    var picked, all := multiset(Flatten(Pick(parts, rows))), multiset(Flatten(parts));
    forall x
      ensures picked[x] == all[x]
    {
      PickPermutationAt(parts, rows, x);
    }
  }

  lemma PickPermutationAt<T>(parts: seq<seq<T>>, rows: seq<nat>, x: T)
    requires Perm(rows, |parts|) && forall i :: 0 <= i < |rows| ==> rows[i] < |parts|
    ensures multiset(Flatten(Pick(parts, rows)))[x] == multiset(Flatten(parts))[x]
  {
    assert Pick(parts, Range(|parts|)) == parts;
    PickMultiplicity(parts, rows, x);
    PickMultiplicity(parts, Range(|parts|), x);
    LoadPermutation(Multiplicity(parts, x), rows, Range(|parts|));
  }

  lemma FlattenGrowOne<T>(parts: seq<seq<T>>, i: nat, x: T)
    requires i < |parts|
    ensures multiset(Flatten(parts[i := parts[i] + [x]])) == multiset(Flatten(parts)) + multiset{x}
  {
    FlattenGrow(parts, i, [x]);
  }

  lemma FlattenOpenOne<T>(parts: seq<seq<T>>, x: T)
    ensures multiset(Flatten(parts + [[x]])) == multiset(Flatten(parts)) + multiset{x}
  {
    FlattenAppend(parts, [[x]]);
    FlattenOne([x]);
    assert multiset(Flatten(parts) + [x]) == multiset(Flatten(parts)) + multiset([x]);
  }

  lemma PrefixContent<T>(s: seq<T>, k: nat)
    requires k < |s|
    ensures multiset(s[..k + 1]) == multiset(s[..k]) + multiset{s[k]}
  {
    assert s[..k + 1] == s[..k] + [s[k]];
  }

  /** Bins that gained one row of an order hold one more row of it. */
  lemma ContentNext(before: seq<seq<nat>>, after: seq<seq<nat>>, order: seq<nat>, k: nat)
    requires 0 < k <= |order| && multiset(Flatten(before)) == multiset(order[..k - 1])
    requires multiset(Flatten(after)) == multiset(Flatten(before)) + multiset{order[k - 1]}
    ensures multiset(Flatten(after)) == multiset(order[..k])
  {
    PrefixContent(order, k - 1);
  }

  lemma RangeNext(n: nat)
    ensures multiset(Range(n + 1)) == multiset(Range(n)) + multiset{n}
  {
    assert Range(n + 1) == Range(n) + [n];
  }

  lemma {:induction false} FlattenMember<T>(parts: seq<seq<T>>, x: T)
    ensures x in Flatten(parts) <==> exists i :: 0 <= i < |parts| && x in parts[i]
    decreases |parts|
  {
    if parts != [] {
      var k := |parts| - 1;
      FlattenMember(parts[..k], x);
      if x in Flatten(parts) {
        if x in parts[k] {
        } else {
          var i :| 0 <= i < |parts[..k]| && x in parts[..k][i];
          assert x in parts[i];
        }
      }
      if i :| 0 <= i < |parts| && x in parts[i] {
        if i < k {
          assert x in parts[..k][i];
        }
      }
    }
  }

  /** Reordering the parts keeps their content. */
  lemma {:induction false} FlattenReorder(a: seq<seq<nat>>, b: seq<seq<nat>>)
    requires multiset(a) == multiset(b)
    ensures multiset(Flatten(a)) == multiset(Flatten(b))
    decreases |a|
  {
    if a == [] {
      assert |multiset(b)| == 0;
    } else {
      var k := |a| - 1;
      assert a[k] in multiset(a);
      assert a[k] in multiset(b);
      var i :| 0 <= i < |b| && b[i] == a[k];
      DropOne(a, b, k, i);
      FlattenReorder(a[..k], b[..i] + b[i + 1..]);
      FlattenRemove(b, i);
    }
  }

  lemma TakeOut<T>(a: seq<T>, b: seq<T>, c: seq<T>)
    ensures multiset(a + (b + c)) == multiset(a + c) + multiset(b)
  {
    assert multiset(a + (b + c)) == multiset(a) + (multiset(b) + multiset(c));
  }

  lemma FlattenAround(head: seq<seq<nat>>, part: seq<nat>, tail: seq<seq<nat>>)
    ensures multiset(Flatten(head + ([part] + tail))) == multiset(Flatten(head + tail)) + multiset(part)
  {
    FlattenAppend(head, tail);
    FlattenAppend(head, [part] + tail);
    FlattenAppend([part], tail);
    FlattenOne(part);
    TakeOut(Flatten(head), part, Flatten(tail));
  }

  lemma SplitAround<T>(s: seq<T>, i: nat)
    requires i < |s|
    ensures s == s[..i] + ([s[i]] + s[i + 1..])
  {
  }

  lemma FlattenRemove(parts: seq<seq<nat>>, i: nat)
    requires i < |parts|
    ensures multiset(Flatten(parts)) == multiset(Flatten(parts[..i] + parts[i + 1..])) + multiset(parts[i])
  {
    SplitAround(parts, i);
    FlattenAround(parts[..i], parts[i], parts[i + 1..]);
  }

  lemma InTwoParts<T>(parts: seq<seq<T>>, i: nat, j: nat, x: T)
    requires i < j < |parts| && x in parts[i] && x in parts[j]
    ensures multiset(Flatten(parts))[x] >= 2
  {
    var left, right := parts[..i + 1], parts[i + 1..];
    assert parts == left + right && left[i] == parts[i] && right[j - i - 1] == parts[j];
    FlattenAppend(left, right);
    FlattenMember(left, x);
    FlattenMember(right, x);
    assert multiset(Flatten(left))[x] >= 1 && multiset(Flatten(right))[x] >= 1;
    assert multiset(Flatten(left) + Flatten(right))[x] == multiset(Flatten(left))[x] + multiset(Flatten(right))[x];
  }

  /** Parts of a permutation of the rows do not overlap. */
  lemma PartsDisjoint(parts: seq<seq<nat>>, n: nat, i: nat, j: nat, x: nat)
    requires Perm(Flatten(parts), n) && i < |parts| && j < |parts| && x in parts[i] && x in parts[j]
    ensures i == j
  {
    RangeMultiplicity(n);
    if i < j {
      InTwoParts(parts, i, j, x);
    } else if j < i {
      InTwoParts(parts, j, i, x);
    }
  }

  lemma DropBoth<T>(a: multiset<T>, b: multiset<T>, c: multiset<T>)
    requires a + c <= b + c
    ensures a <= b
  {
    forall x
      ensures a[x] <= b[x]
    {
      assert (a + c)[x] <= (b + c)[x];
    }
  }

  /** Listing a sub-collection of rows cannot weigh more. */
  lemma {:induction false} LoadSubset(weights: seq<int>, a: seq<nat>, b: seq<nat>)
    requires multiset(a) <= multiset(b) && forall i :: 0 <= i < |weights| ==> weights[i] >= 0
    ensures Load(weights, a) <= Load(weights, b)
    decreases |a|
  {
    if a == [] {
      LoadNonNegative(weights, b);
    } else {
      var k := |a| - 1;
      assert a == a[..k] + [a[k]];
      assert a[k] in multiset(b);
      var i :| 0 <= i < |b| && b[i] == a[k];
      assert b == b[..i] + [b[i]] + b[i + 1..];
      assert multiset(b) == multiset(b[..i] + b[i + 1..]) + multiset{b[i]};
      assert multiset(a) == multiset(a[..k]) + multiset{a[k]};
      DropBoth(multiset(a[..k]), multiset(b[..i] + b[i + 1..]), multiset{a[k]});
      LoadSubset(weights, a[..k], b[..i] + b[i + 1..]);
      LoadRemove(weights, b, i);
    }
  }

  // ---------------------------------------------------------------- permutations

  lemma PermMember(rows: seq<nat>, n: nat)
    requires Perm(rows, n)
    ensures |rows| == n
    ensures forall x :: x in rows <==> 0 <= x < n
    ensures Distinct(rows)
  {
    assert |multiset(rows)| == |rows|;
    assert |multiset(Range(n))| == n;
    forall x
      ensures x in rows <==> 0 <= x < n
    {
      assert x in rows <==> x in multiset(rows);
      if 0 <= x < n {
        assert Range(n)[x] == x;
      }
    }
    RangeMultiplicity(n);
    forall i, j | 0 <= i < j < |rows|
      ensures rows[i] != rows[j]
    {
      if rows[i] == rows[j] {
        TwiceListed(rows, i, j);
        assert false;
      }
    }
  }

  lemma {:induction false} RangeMultiplicity(n: nat)
    ensures forall x :: multiset(Range(n))[x] <= 1
    decreases n
  {
    if n > 0 {
      RangeMultiplicity(n - 1);
      assert Range(n) == Range(n - 1) + [n - 1];
    }
  }

  lemma TwiceListed<T>(rows: seq<T>, i: nat, j: nat)
    requires i < j < |rows| && rows[i] == rows[j]
    ensures multiset(rows)[rows[i]] >= 2
  {
    assert rows == rows[..i] + [rows[i]] + rows[i + 1..j] + [rows[j]] + rows[j + 1..];
  }

  /** A reordering of distinct elements has distinct elements. */
  lemma ReorderingIsDistinct<T>(a: seq<T>, b: seq<T>)
    requires multiset(a) == multiset(b) && Distinct(b)
    ensures Distinct(a)
  {
    DistinctMultiplicity(b);
    forall i, j | 0 <= i < j < |a|
      ensures a[i] != a[j]
    {
      if a[i] == a[j] {
        TwiceListed(a, i, j);
      }
    }
  }

  /** The converse of PermMember: distinct indices below `n`, `n` of them, are all of them. */
  lemma DistinctIsPerm(rows: seq<nat>, n: nat)
    requires Distinct(rows) && |rows| == n
    requires forall x :: x in rows ==> x < n
    ensures Perm(rows, n)
  {
    RangeMultiplicity(n);
    DistinctMultiplicity(rows);
    assert forall x :: x in multiset(rows) ==> x in Range(n) by {
      forall x | x in multiset(rows) ensures x in Range(n) {
        assert x in rows;
        assert Range(n)[x] == x;
      }
    }
    var inside := multiset(Range(n));
    assert multiset(rows) <= inside;
    assert |inside - multiset(rows)| == |inside| - |multiset(rows)| == 0;
    assert inside == multiset(rows) + (inside - multiset(rows));
  }

  lemma {:induction false} DistinctMultiplicity<T>(rows: seq<T>)
    requires Distinct(rows)
    ensures forall x :: multiset(rows)[x] <= 1
    decreases |rows|
  {
    if rows != [] {
      var k := |rows| - 1;
      DistinctMultiplicity(rows[..k]);
      assert rows == rows[..k] + [rows[k]];
      assert rows[k] !in rows[..k];
    }
  }

  // ---------------------------------------------------------------- sorting

  ghost predicate TotalOrder<T(!new)>(le: (T, T) -> bool) {
    && (forall x, y :: le(x, y) || le(y, x))
    && (forall x, y, z :: le(x, y) && le(y, z) ==> le(x, z))
  }

  ghost predicate SortedBy<T>(le: (T, T) -> bool, s: seq<T>) {
    forall i, j :: 0 <= i < j < |s| ==> le(s[i], s[j])
  }

  function Insert<T>(le: (T, T) -> bool, s: seq<T>, x: T): seq<T> {
    if s == [] || le(s[|s| - 1], x) then s + [x]
    else Insert(le, s[..|s| - 1], x) + [s[|s| - 1]]
  }

  /** Python's `sorted`. A sort of `range(n)` by a key is stable, so it is written with the
      order "smaller key, then smaller index". */
  function SortBy<T>(le: (T, T) -> bool, s: seq<T>): seq<T> {
    if s == [] then [] else Insert(le, SortBy(le, s[..|s| - 1]), s[|s| - 1])
  }

  lemma {:induction false} InsertContent<T>(le: (T, T) -> bool, s: seq<T>, x: T)
    ensures multiset(Insert(le, s, x)) == multiset(s) + multiset{x}
    decreases |s|
  {
    if s != [] && !le(s[|s| - 1], x) {
      InsertContent(le, s[..|s| - 1], x);
      assert s == s[..|s| - 1] + [s[|s| - 1]];
    }
  }

  lemma AppendSorted<T>(le: (T, T) -> bool, s: seq<T>, x: T)
    requires SortedBy(le, s) && forall i :: 0 <= i < |s| ==> le(s[i], x)
    ensures SortedBy(le, s + [x])
  {
  }

  lemma Chain<T(!new)>(le: (T, T) -> bool, x: T, y: T, z: T)
    requires TotalOrder(le) && le(x, y) && le(y, z)
    ensures le(x, z)
  {
  }

  lemma {:induction false} InsertSorted<T(!new)>(le: (T, T) -> bool, s: seq<T>, x: T)
    requires TotalOrder(le) && SortedBy(le, s)
    ensures SortedBy(le, Insert(le, s, x))
    decreases |s|
  {
    if s == [] {
    } else if le(s[|s| - 1], x) {
      forall i | 0 <= i < |s| ensures le(s[i], x) {
        if i < |s| - 1 {
          Chain(le, s[i], s[|s| - 1], x);
        }
      }
      AppendSorted(le, s, x);
    } else {
      var k := |s| - 1;
      InsertSorted(le, s[..k], x);
      InsertContent(le, s[..k], x);
      var r := Insert(le, s[..k], x);
      assert le(x, s[k]);
      forall i | 0 <= i < |r|
        ensures le(r[i], s[k])
      {
        assert r[i] in multiset(r);
        assert r[i] == x || r[i] in s[..k];
      }
      AppendSorted(le, r, s[k]);
    }
  }

  lemma {:induction false} SortByContent<T>(le: (T, T) -> bool, s: seq<T>)
    ensures multiset(SortBy(le, s)) == multiset(s)
    decreases |s|
  {
    if s != [] {
      var k := |s| - 1;
      SortByContent(le, s[..k]);
      InsertContent(le, SortBy(le, s[..k]), s[k]);
      PrefixContent(s, k);
      assert s[..k + 1] == s;
    }
  }

  lemma {:induction false} SortByOrder<T(!new)>(le: (T, T) -> bool, s: seq<T>)
    requires TotalOrder(le)
    ensures SortedBy(le, SortBy(le, s))
    decreases |s|
  {
    if s != [] {
      var k := |s| - 1;
      SortByOrder(le, s[..k]);
      InsertSorted(le, SortBy(le, s[..k]), s[k]);
    }
  }

  /** What `sorted` promises: the same elements, in order. */
  lemma SortBySorts<T(!new)>(le: (T, T) -> bool, s: seq<T>)
    requires TotalOrder(le)
    ensures SortedBy(le, SortBy(le, s))
    ensures multiset(SortBy(le, s)) == multiset(s)
    ensures |SortBy(le, s)| == |s|
  {
    SortByContent(le, s);
    SortByOrder(le, s);
    assert |multiset(SortBy(le, s))| == |multiset(s)|;
  }

  /** Ascending order of row indices. */
  function Ascending(): (nat, nat) -> bool {
    (a, b) => a <= b
  }

  /** Rows by descending weight, ties in row order: a stable sort on the negated weight. */
  function HeaviestFirst(weights: seq<int>): (nat, nat) -> bool {
    (a: nat, b: nat) => At(weights, a) > At(weights, b) || (At(weights, a) == At(weights, b) && a <= b)
  }

  /** `sorted(range(n), key=weight, reverse=True)`. */
  function HeaviestOrder(weights: seq<int>): seq<nat> {
    SortBy(HeaviestFirst(weights), Range(|weights|))
  }

  ghost predicate Descending(weights: seq<int>, order: seq<nat>) {
    forall i, j :: 0 <= i < j < |order| ==> At(weights, order[i]) >= At(weights, order[j])
  }

  ghost predicate TiesInRowOrder(weights: seq<int>, order: seq<nat>) {
    forall i, j :: 0 <= i < j < |order| && At(weights, order[i]) == At(weights, order[j]) ==> order[i] < order[j]
  }

  lemma HeaviestOrderSorts(weights: seq<int>)
    ensures Perm(HeaviestOrder(weights), |weights|) && |HeaviestOrder(weights)| == |weights|
    ensures forall i :: 0 <= i < |weights| ==> HeaviestOrder(weights)[i] < |weights|
    ensures Descending(weights, HeaviestOrder(weights))
    ensures TiesInRowOrder(weights, HeaviestOrder(weights))
  {
    var order := HeaviestOrder(weights);
    SortBySorts(HeaviestFirst(weights), Range(|weights|));
    PermMember(order, |weights|);
    forall i | 0 <= i < |weights| ensures order[i] < |weights| {
      assert order[i] in order;
    }
    forall i, j | 0 <= i < j < |order|
      ensures At(weights, order[i]) >= At(weights, order[j])
      ensures At(weights, order[i]) == At(weights, order[j]) ==> order[i] < order[j]
    {
      assert HeaviestFirst(weights)(order[i], order[j]);
      assert order[i] != order[j];
    }
  }

  ghost predicate AllAtLeast(weights: seq<int>, bins: seq<seq<nat>>, x: int) {
    forall b, i :: 0 <= b < |bins| && 0 <= i < |bins[b]| ==> At(weights, bins[b][i]) >= x
  }

  /** Rows placed in a descending order are at least as heavy as the next one. */
  lemma PlacedAreHeavier(weights: seq<int>, order: seq<nat>, bins: seq<seq<nat>>, k: nat)
    requires Descending(weights, order) && k < |order| && multiset(Flatten(bins)) == multiset(order[..k])
    ensures AllAtLeast(weights, bins, At(weights, order[k]))
  {
    forall b, i | 0 <= b < |bins| && 0 <= i < |bins[b]|
      ensures At(weights, bins[b][i]) >= At(weights, order[k])
    {
      FlattenMember(bins, bins[b][i]);
      assert bins[b][i] in multiset(Flatten(bins));
      assert bins[b][i] in multiset(order[..k]);
      var j :| 0 <= j < k && order[..k][j] == bins[b][i];
    }
  }

  lemma AscendingIsTotal()
    ensures TotalOrder(Ascending())
  {
  }

  // ---------------------------------------------------------------- arithmetic

  lemma MulSucc(k: int, x: int)
    ensures (k + 1) * x == k * x + x
  {
  }

  lemma MulNext(k: int, x: int)
    ensures k * (x + 1) == k * x + k
  {
  }

  lemma MulMonotone(k: nat, a: int, b: int)
    requires a <= b
    ensures k * a <= k * b
  {
  }

  /** A whole number of `size`-row groups within `cap` rows is at most `cap / size` of them. */
  lemma MultipleWithin(size: nat, count: int, cap: nat)
    requires size > 0 && size * count <= cap
    ensures count <= cap / size
  {
    var q := cap / size;
    assert cap == size * q + cap % size;
    assert size * (q + 1) == size * q + size;
    if count > q {
      MulMonotone(size, q + 1, count);
      assert false;
    }
  }

  lemma QuotientIs(n: nat, d: nat, q: nat)
    requires d > 0 && d * q <= n < d * q + d
    ensures n / d == q
  {
    MultipleWithin(d, q, n);
    assert n == d * (n / d) + n % d;
    var m := n / d;
    if m > q {
      MulNext(d, q);
      MulMonotone(d, q + 1, m);
      assert false;
    }
  }

  lemma ExactDivision(n: nat, d: nat, q: nat)
    requires d > 0 && n == d * q
    ensures n / d == q && n % d == 0
  {
    MultipleWithin(d, q, n);
    assert n == d * (n / d) + n % d;
    assert d * (q + 1) == d * q + d;
    var m := n / d;
    if m > q {
      MulMonotone(d, q + 1, m);
      assert false;
    }
  }

  // ---------------------------------------------------------------- row-major layout

  lemma {:induction false} FlattenGrid<T>(rows: seq<seq<T>>, width: nat, r: nat, k: nat)
    requires (forall i :: 0 <= i < |rows| ==> |rows[i]| == width) && r < |rows| && k < width
    ensures |Flatten(rows)| == |rows| * width
    ensures 0 <= r * width + k < |Flatten(rows)| && Flatten(rows)[r * width + k] == rows[r][k]
    decreases |rows|
  {
    var n := |rows| - 1;
    MulSucc(n, width);
    FlattenGridLength(rows[..n], width);
    if r < n {
      FlattenGrid(rows[..n], width, r, k);
    }
  }

  lemma {:induction false} FlattenGridLength<T>(rows: seq<seq<T>>, width: nat)
    requires forall i :: 0 <= i < |rows| ==> |rows[i]| == width
    ensures |Flatten(rows)| == |rows| * width
    decreases |rows|
  {
    if rows != [] {
      FlattenGridLength(rows[..|rows| - 1], width);
      MulSucc(|rows| - 1, width);
    }
  }

  // ---------------------------------------------------------------- cutting into ranges

  function Least(a: int, b: int): int {
    if a <= b then a else b
  }

  /** Consecutive ranges of `size` elements, the last one shorter; the empty sequence has one empty range. */
  function Cut<T>(s: seq<T>, size: nat): (pieces: seq<seq<T>>)
    requires size > 0
    ensures pieces != []
  {
    if |s| <= size then [s] else [s[..size]] + Cut(s[size..], size)
  }

  lemma {:induction false} CutJoins<T>(s: seq<T>, size: nat)
    requires size > 0
    ensures Flatten(Cut(s, size)) == s
    ensures forall i :: 0 <= i < |Cut(s, size)| ==> |Cut(s, size)[i]| <= size
    ensures s != [] ==> forall i :: 0 <= i < |Cut(s, size)| ==> Cut(s, size)[i] != []
    decreases |s|
  {
    if |s| <= size {
      FlattenOne(s);
    } else {
      CutJoins(s[size..], size);
      FlattenAppend([s[..size]], Cut(s[size..], size));
      FlattenOne(s[..size]);
      assert s == s[..size] + s[size..];
    }
  }

  /** One range per started `size` elements, and one for the empty sequence. */
  ghost function CutCount(length: nat, size: nat): nat
    requires size > 0
  {
    if length == 0 then 1 else (length + size - 1) / size
  }

  ghost predicate IsRange<T>(s: seq<T>, size: nat, i: nat, piece: seq<T>) {
    var start, end := i * size, Least((i + 1) * size, |s|);
    start <= end && piece == s[start..end]
  }

  lemma CountStep(length: nat, size: nat)
    requires 0 < size
    ensures 0 < length <= size ==> CutCount(length, size) == 1
    ensures size < length ==> CutCount(length, size) == 1 + CutCount(length - size, size)
  {
    if 0 < length <= size {
      QuotientIs(length + size - 1, size, 1);
    } else if size < length {
      var q := (length - 1) / size;
      assert length - 1 == size * q + (length - 1) % size;
      MulNext(size, q);
      QuotientIs(length + size - 1, size, q + 1);
    }
  }

  lemma RangeShifts<T>(s: seq<T>, size: nat, i: nat, piece: seq<T>)
    requires size <= |s| && IsRange(s[size..], size, i, piece)
    ensures IsRange(s, size, i + 1, piece)
  {
    MulSucc(i, size);
    MulSucc(i + 1, size);
    var start, end := i * size, Least((i + 1) * size, |s| - size);
    assert s[size..][start..end] == s[start + size..end + size];
  }

  /** There are as many ranges as it takes, and range `i` starts at element `i * size`. */
  lemma {:induction false} CutAt<T>(s: seq<T>, size: nat)
    requires size > 0
    ensures |Cut(s, size)| == CutCount(|s|, size)
    ensures forall i :: 0 <= i < |Cut(s, size)| ==> IsRange(s, size, i, Cut(s, size)[i])
    decreases |s|
  {
    CountStep(|s|, size);
    if |s| > size {
      CutAt(s[size..], size);
      var pieces, rest := Cut(s, size), Cut(s[size..], size);
      forall i | 0 <= i < |pieces|
        ensures IsRange(s, size, i, pieces[i])
      {
        if i > 0 {
          RangeShifts(s, size, i - 1, rest[i - 1]);
        }
      }
    }
  }

  lemma RangeStartsInside(length: nat, size: nat, i: nat)
    requires size > 0 && i < CutCount(length, size)
    ensures i * size <= Least((i + 1) * size, length)
  {
    MulSucc(i, size);
    if length > 0 {
      var q := (length + size - 1) / size;
      assert length + size - 1 == size * q + (length + size - 1) % size;
      MulMonotone(size, i + 1, q);
    }
  }
}
