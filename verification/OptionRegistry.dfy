/** Model profiles that settle configurable options, their inheritance, and the checker that must
    make the table total (arctic_platform/common/option_registry.py, _chain, _own_cells,
    _settle_chain, settle, _profile_problems, check_coverage). Shell-style matching and the
    wording rules for reasons are parameters. */
module OptionRegistry {
  import opened Basics

  datatype Status = Supports | Unsupported | NotApplicable

  datatype Cell = Cell(status: Status, reason: Option<string>)

  /** `unsupported` and `notApplicable` are mappings in insertion order. */
  datatype Profile = Profile(
    name: string, base: Option<string>, supports: seq<string>,
    unsupported: seq<(string, string)>, notApplicable: seq<(string, string)>)

  datatype Registry = Registry(options: seq<string>, profiles: map<string, Profile>)

  /** What the registration functions guarantee. */
  ghost predicate Valid(reg: Registry) {
    && Distinct(reg.options)
    && (forall i :: 0 <= i < |reg.options| ==> !Wildcard(reg.options[i]))
    && (forall n :: n in reg.profiles ==> reg.profiles[n].name == n)
  }

  predicate Wildcard(pattern: string) {
    '*' in pattern
  }

  /** The outside functions: does a key match a pattern, is a reason acceptable, how is the table rendered. */
  datatype Rules = Rules(matches: (string, string) -> bool, goodReason: string -> bool, render: Registry -> string)

  // ---------------------------------------------------------------- the inheritance chain

  datatype ChainProblem = Cycle | UnknownBase(name: string)

  /** A profile and its bases, nearest first, with the problem that cut the walk short. */
  ghost function Ancestry(reg: Registry, current: Profile, seen: set<string>): (seq<Profile>, Option<ChainProblem>)
    decreases reg.profiles.Keys - seen
  {
    if current.base.None? then ([current], None)
    else if current.base.value in seen then ([current], Some(Cycle))
    else if current.base.value !in reg.profiles then ([current], Some(UnknownBase(current.base.value)))
    else
      var base := current.base.value;
      var rest := Ancestry(reg, reg.profiles[base], seen + {base});
      ([current] + rest.0, rest.1)
  }

  function Reverse<T>(s: seq<T>): (r: seq<T>)
    ensures |r| == |s| && forall i :: 0 <= i < |s| ==> r[i] == s[|s| - 1 - i]
  {
    seq(|s|, i requires 0 <= i < |s| => s[|s| - 1 - i])
  }

  lemma ReverseTwice<T>(s: seq<T>)
    ensures Reverse(Reverse(s)) == s
  {
  }

  ghost predicate AncestryFrom(
      reg: Registry, whole: (seq<Profile>, Option<ChainProblem>), done: seq<Profile>, current: Profile,
      names: set<string>)
  {
    var rest := Ancestry(reg, current, names);
    whole.0 == done + rest.0 && whole.1 == rest.1
  }

  lemma AncestryNext(
      reg: Registry, whole: (seq<Profile>, Option<ChainProblem>), done: seq<Profile>, current: Profile,
      names: set<string>)
    requires AncestryFrom(reg, whole, done, current, names) && current.base.Some?
    requires current.base.value !in names && current.base.value in reg.profiles
    ensures AncestryFrom(reg, whole, done + [current], reg.profiles[current.base.value], names + {current.base.value})
  {
    var rest := Ancestry(reg, reg.profiles[current.base.value], names + {current.base.value});
    assert done + ([current] + rest.0) == (done + [current]) + rest.0;
  }

  ghost predicate IsBaseOf(reg: Registry, base: Profile, p: Profile) {
    p.base.Some? && p.base.value in reg.profiles && base == reg.profiles[p.base.value]
  }

  /** `up` starts at the profile, and each member but the first is the registered base of the one before it. */
  ghost predicate Climbs(reg: Registry, up: seq<Profile>, p: Profile) {
    && up != [] && up[0] == p
    && (forall i :: 0 < i < |up| ==> IsBaseOf(reg, up[i], up[i - 1]))
    && forall i, j :: 0 <= i < j < |up| ==> up[i].name != up[j].name
  }

  /** Why the climb went no further: no base, a base that is not registered, or one that it has passed. */
  ghost predicate Stops(reg: Registry, up: seq<Profile>, problem: Option<ChainProblem>)
    requires up != []
  {
    var base := up[|up| - 1].base;
    if problem.None? then base.None?
    else
      && base.Some?
      && match problem.value
         case UnknownBase(name) => base.value == name && name !in reg.profiles && !Passed(up, name)
         case Cycle => Passed(up, base.value)
  }

  ghost predicate Passed(up: seq<Profile>, name: string) {
    exists i :: 0 <= i < |up| && up[i].name == name
  }

  /** The same for a walk that started with the names in `seen` already passed. */
  ghost predicate WalkStops(reg: Registry, up: seq<Profile>, seen: set<string>, problem: Option<ChainProblem>)
    requires up != []
  {
    var base := up[|up| - 1].base;
    if problem.None? then base.None?
    else
      && base.Some?
      && match problem.value
         case UnknownBase(name) => base.value == name && name !in reg.profiles && name !in seen && !Passed(up, name)
         case Cycle => base.value in seen || Passed(up, base.value)
  }

  ghost predicate BasesOutside(up: seq<Profile>, seen: set<string>) {
    forall i :: 0 < i < |up| ==> up[i].name !in seen
  }

  lemma {:induction false} AncestryClimbs(reg: Registry, current: Profile, seen: set<string>)
    requires Valid(reg) && current.name in seen
    ensures Climbs(reg, Ancestry(reg, current, seen).0, current)
    ensures BasesOutside(Ancestry(reg, current, seen).0, seen)
    ensures WalkStops(reg, Ancestry(reg, current, seen).0, seen, Ancestry(reg, current, seen).1)
    decreases reg.profiles.Keys - seen
  {
    var up := Ancestry(reg, current, seen).0;
    if current.base.Some? && current.base.value !in seen && current.base.value in reg.profiles {
      var base := current.base.value;
      AncestryClimbs(reg, reg.profiles[base], seen + {base});
      var walk := Ancestry(reg, reg.profiles[base], seen + {base});
      var rest, problem := walk.0, walk.1;
      assert up == [current] + rest;
      ClimbLonger(reg, current, base, rest, seen);
      StopsLonger(reg, current, base, rest, seen, problem);
    } else {
      assert up == [current];
      assert forall name :: Passed(up, name) ==> name == up[0].name;
    }
  }

  lemma ClimbLonger(reg: Registry, current: Profile, base: string, rest: seq<Profile>, seen: set<string>)
    requires Valid(reg) && current.name in seen && base !in seen && current.base == Some(base) && base in reg.profiles
    requires Climbs(reg, rest, reg.profiles[base])
    requires BasesOutside(rest, seen + {base})
    ensures Climbs(reg, [current] + rest, current) && BasesOutside([current] + rest, seen)
  {
    var up := [current] + rest;
    forall i | 0 < i < |up|
      ensures IsBaseOf(reg, up[i], up[i - 1]) && up[i].name !in seen
    {
      assert up[i] == rest[i - 1] && (i > 1 ==> up[i - 1] == rest[i - 2]);
    }
    forall i, j | 0 <= i < j < |up|
      ensures up[i].name != up[j].name
    {
      assert up[j] == rest[j - 1] && (i > 0 ==> up[i] == rest[i - 1]);
    }
  }

  lemma StopsLonger(
      reg: Registry, current: Profile, base: string, rest: seq<Profile>, seen: set<string>,
      problem: Option<ChainProblem>)
    requires current.name in seen && rest != [] && rest[0].name == base
    requires WalkStops(reg, rest, seen + {base}, problem)
    ensures WalkStops(reg, [current] + rest, seen, problem)
  {
    PassedLonger(current, rest);
    assert Passed(rest, rest[0].name);
  }

  lemma PassedLonger(first: Profile, rest: seq<Profile>)
    ensures forall name :: Passed([first] + rest, name) <==> first.name == name || Passed(rest, name)
  {
    var up := [first] + rest;
    forall name
      ensures Passed(up, name) <==> first.name == name || Passed(rest, name)
    {
      if Passed(rest, name) {
        var i :| 0 <= i < |rest| && rest[i].name == name;
        assert up[i + 1].name == name;
      }
      if Passed(up, name) {
        var i :| 0 <= i < |up| && up[i].name == name;
        assert i > 0 ==> rest[i - 1].name == name;
      }
      assert up[0].name == first.name;
    }
  }

  lemma ChainClimbs(reg: Registry, p: Profile)
    requires Valid(reg)
    ensures Climbs(reg, Ancestry(reg, p, {p.name}).0, p)
    ensures Stops(reg, Ancestry(reg, p, {p.name}).0, Ancestry(reg, p, {p.name}).1)
  {
    AncestryClimbs(reg, p, {p.name});
    var up := Ancestry(reg, p, {p.name}).0;
    assert Passed(up, up[0].name);
  }

  /** The chain from the root base down to the profile. It ends on cyclic inheritance too. */
  method Chain(reg: Registry, profile: Profile) returns (chain: seq<Profile>, problem: Option<ChainProblem>)
    ensures
      var up := Ancestry(reg, profile, {profile.name});
      chain == Reverse(up.0) && problem == up.1
    ensures Valid(reg) ==> Climbs(reg, Reverse(chain), profile) && Stops(reg, Reverse(chain), problem)
  {
    if Valid(reg) {
      ChainClimbs(reg, profile);
      ReverseTwice(Ancestry(reg, profile, {profile.name}).0);
    }
    var up := [profile];
    var seen := [profile.name];
    var current := profile;
    ghost var names, done, whole := {profile.name}, [], Ancestry(reg, profile, {profile.name});
    while current.base.Some?
      invariant up == done + [current] && names == set n | n in seen
      invariant AncestryFrom(reg, whole, done, current, names)
      decreases reg.profiles.Keys - names
    {
      var name := current.base.value;
      if name in seen {
        return Reverse(up), Some(Cycle);
      }
      if name !in reg.profiles {
        return Reverse(up), Some(UnknownBase(name));
      }
      AncestryNext(reg, whole, done, current, names);
      done := done + [current];
      current := reg.profiles[name];
      up := up + [current];
      seen := seen + [name];
      names := names + {name};
    }
    return Reverse(up), None;
  }

  /** Bases come from the registry. */
  lemma {:induction false} AncestryRegistered(reg: Registry, current: Profile, seen: set<string>, i: nat)
    requires Valid(reg) && i < |Ancestry(reg, current, seen).0|
    ensures i > 0 ==> Ancestry(reg, current, seen).0[i].name in reg.profiles
                      && reg.profiles[Ancestry(reg, current, seen).0[i].name] == Ancestry(reg, current, seen).0[i]
    ensures Ancestry(reg, current, seen).0[0] == current
    decreases reg.profiles.Keys - seen
  {
    var up := Ancestry(reg, current, seen).0;
    if i > 0 {
      var base := current.base.value;
      AncestryRegistered(reg, reg.profiles[base], seen + {base}, i - 1);
    }
  }

  // ---------------------------------------------------------------- entries and own cells

  /** One line of a profile. */
  datatype Entry = Sup(i: nat) | Uns(i: nat) | Na(i: nat)

  predicate Has(p: Profile, e: Entry) {
    match e
    case Sup(i) => i < |p.supports|
    case Uns(i) => i < |p.unsupported|
    case Na(i) => i < |p.notApplicable|
  }

  /** The line settles this option key. */
  predicate Settles(rules: Rules, p: Profile, e: Entry, key: string)
    requires Has(p, e)
  {
    match e
    case Sup(i) => p.supports[i] == key
    case Uns(i) => p.unsupported[i].0 == key
    case Na(i) =>
      var pattern := p.notApplicable[i].0;
      if Wildcard(pattern) then rules.matches(key, pattern) else pattern == key
  }

  function CellOf(p: Profile, e: Entry): Cell
    requires Has(p, e)
  {
    match e
    case Sup(_) => Cell(Supports, None)
    case Uns(i) => Cell(Unsupported, Some(p.unsupported[i].1))
    case Na(i) => Cell(NotApplicable, Some(p.notApplicable[i].1))
  }

  ghost predicate AllHas(p: Profile, entries: seq<Entry>) {
    forall i :: 0 <= i < |entries| ==> Has(p, entries[i])
  }

  /** Cells after one line has been written over them. */
  ghost function Written(reg: Registry, rules: Rules, p: Profile, cells: map<string, Cell>, e: Entry): map<string, Cell>
    requires Has(p, e)
  {
    cells + map k | k in reg.options && Settles(rules, p, e, k) :: CellOf(p, e)
  }

  ghost function WrittenAll(reg: Registry, rules: Rules, p: Profile, entries: seq<Entry>): map<string, Cell>
    requires AllHas(p, entries)
  {
    if entries == [] then map[]
    else Written(reg, rules, p, WrittenAll(reg, rules, p, entries[..|entries| - 1]), entries[|entries| - 1])
  }

  /** The not-applicable lines below `k` that are, or are not, wildcards. */
  ghost function NaLines(p: Profile, wild: bool, k: nat): (entries: seq<Entry>)
    requires k <= |p.notApplicable|
    ensures AllHas(p, entries) && forall i :: 0 <= i < |entries| ==> entries[i].Na?
  {
    if k == 0 then []
    else NaLines(p, wild, k - 1) + (if Wildcard(p.notApplicable[k - 1].0) == wild then [Na(k - 1)] else [])
  }

  ghost function UnsLines(p: Profile, k: nat): (entries: seq<Entry>)
    requires k <= |p.unsupported|
    ensures AllHas(p, entries) && |entries| == k && forall i :: 0 <= i < k ==> entries[i] == Uns(i)
  {
    seq(k, i requires 0 <= i < k => Uns(i))
  }

  ghost function SupLines(p: Profile, k: nat): (entries: seq<Entry>)
    requires k <= |p.supports|
    ensures AllHas(p, entries) && |entries| == k && forall i :: 0 <= i < k ==> entries[i] == Sup(i)
  {
    seq(k, i requires 0 <= i < k => Sup(i))
  }

  /** The order in which a profile's lines are written: explicit keys after wildcards. */
  ghost function WriteOrder(p: Profile): (entries: seq<Entry>)
    ensures AllHas(p, entries)
  {
    NaLines(p, true, |p.notApplicable|) + NaLines(p, false, |p.notApplicable|)
    + UnsLines(p, |p.unsupported|) + SupLines(p, |p.supports|)
  }

  lemma WrittenNext(reg: Registry, rules: Rules, p: Profile, entries: seq<Entry>, e: Entry)
    requires AllHas(p, entries) && Has(p, e)
    ensures AllHas(p, entries + [e])
    ensures WrittenAll(reg, rules, p, entries + [e]) == Written(reg, rules, p, WrittenAll(reg, rules, p, entries), e)
  {
    assert (entries + [e])[..|entries|] == entries;
  }

  /** An explicit line writes one cell, and only for a registered key. */
  lemma WrittenExplicit(reg: Registry, rules: Rules, p: Profile, cells: map<string, Cell>, e: Entry, key: string)
    requires Has(p, e) && forall k :: Settles(rules, p, e, k) <==> k == key
    ensures Written(reg, rules, p, cells, e) == if key in reg.options then cells[key := CellOf(p, e)] else cells
  {
  }

  /** The cells a profile settles itself. */
  method OwnCells(reg: Registry, rules: Rules, p: Profile) returns (cells: map<string, Cell>)
    ensures cells == WrittenAll(reg, rules, p, WriteOrder(p))
    ensures IsTable(reg, rules, [p], cells)
  {
    OwnIsTable(reg, rules, p);
    cells := WriteWildcards(reg, rules, p);
    ghost var entries := NaLines(p, true, |p.notApplicable|);
    cells := WriteNotApplicable(reg, rules, p, cells, entries);
    entries := entries + NaLines(p, false, |p.notApplicable|);
    cells := WriteUnsupported(reg, rules, p, cells, entries);
    entries := entries + UnsLines(p, |p.unsupported|);
    cells := WriteSupported(reg, rules, p, cells, entries);
  }

  method WriteWildcards(reg: Registry, rules: Rules, p: Profile) returns (cells: map<string, Cell>)
    ensures cells == WrittenAll(reg, rules, p, NaLines(p, true, |p.notApplicable|))
  {
    cells := map[];
    ghost var entries: seq<Entry> := [];
    for i := 0 to |p.notApplicable|
      invariant entries == NaLines(p, true, i) && cells == WrittenAll(reg, rules, p, entries)
    {
      if Wildcard(p.notApplicable[i].0) {
        WrittenNext(reg, rules, p, entries, Na(i));
        cells := WriteMatches(reg, rules, p, cells, i);
        entries := entries + [Na(i)];
      } else {
        assert NaLines(p, true, i + 1) == entries;
      }
    }
  }

  method WriteNotApplicable(reg: Registry, rules: Rules, p: Profile, cells0: map<string, Cell>, ghost prior: seq<Entry>)
    returns (cells: map<string, Cell>)
    requires AllHas(p, prior) && cells0 == WrittenAll(reg, rules, p, prior)
    ensures AllHas(p, prior + NaLines(p, false, |p.notApplicable|))
    ensures cells == WrittenAll(reg, rules, p, prior + NaLines(p, false, |p.notApplicable|))
  {
    cells := cells0;
    ghost var entries := prior;
    for i := 0 to |p.notApplicable|
      invariant entries == prior + NaLines(p, false, i) && AllHas(p, entries)
                && cells == WrittenAll(reg, rules, p, entries)
    {
      var (key, reason) := p.notApplicable[i];
      if !Wildcard(key) {
        WrittenNext(reg, rules, p, entries, Na(i));
        WrittenExplicit(reg, rules, p, cells, Na(i), key);
        if key in reg.options {
          cells := cells[key := Cell(NotApplicable, Some(reason))];
        }
        entries := entries + [Na(i)];
      }
    }
  }

  method WriteUnsupported(reg: Registry, rules: Rules, p: Profile, cells0: map<string, Cell>, ghost prior: seq<Entry>)
    returns (cells: map<string, Cell>)
    requires AllHas(p, prior) && cells0 == WrittenAll(reg, rules, p, prior)
    ensures AllHas(p, prior + UnsLines(p, |p.unsupported|))
    ensures cells == WrittenAll(reg, rules, p, prior + UnsLines(p, |p.unsupported|))
  {
    cells := cells0;
    ghost var entries := prior;
    for i := 0 to |p.unsupported|
      invariant entries == prior + UnsLines(p, i) && AllHas(p, entries) && cells == WrittenAll(reg, rules, p, entries)
    {
      var (key, reason) := p.unsupported[i];
      WrittenNext(reg, rules, p, entries, Uns(i));
      WrittenExplicit(reg, rules, p, cells, Uns(i), key);
      if key in reg.options {
        cells := cells[key := Cell(Unsupported, Some(reason))];
      }
      entries := entries + [Uns(i)];
    }
  }

  method WriteSupported(reg: Registry, rules: Rules, p: Profile, cells0: map<string, Cell>, ghost prior: seq<Entry>)
    returns (cells: map<string, Cell>)
    requires AllHas(p, prior) && cells0 == WrittenAll(reg, rules, p, prior)
    ensures AllHas(p, prior + SupLines(p, |p.supports|))
    ensures cells == WrittenAll(reg, rules, p, prior + SupLines(p, |p.supports|))
  {
    cells := cells0;
    ghost var entries := prior;
    for i := 0 to |p.supports|
      invariant entries == prior + SupLines(p, i) && AllHas(p, entries) && cells == WrittenAll(reg, rules, p, entries)
    {
      WrittenNext(reg, rules, p, entries, Sup(i));
      WrittenExplicit(reg, rules, p, cells, Sup(i), p.supports[i]);
      if p.supports[i] in reg.options {
        cells := cells[p.supports[i] := Cell(Supports, None)];
      }
      entries := entries + [Sup(i)];
    }
  }

  /** The same cell for every listed key that matches. */
  ghost function Stamp(rules: Rules, keys: seq<string>, pattern: string, cell: Cell): map<string, Cell> {
    map k | k in keys && rules.matches(k, pattern) :: cell
  }

  lemma StampNext(rules: Rules, keys: seq<string>, pattern: string, cell: Cell, before: map<string, Cell>, x: string)
    ensures before + Stamp(rules, keys + [x], pattern, cell)
         == if rules.matches(x, pattern) then (before + Stamp(rules, keys, pattern, cell))[x := cell]
            else before + Stamp(rules, keys, pattern, cell)
  {
  }

  method WriteMatches(reg: Registry, rules: Rules, p: Profile, before: map<string, Cell>, i: nat)
    returns (cells: map<string, Cell>)
    requires i < |p.notApplicable| && Wildcard(p.notApplicable[i].0)
    ensures cells == Written(reg, rules, p, before, Na(i))
  {
    var (pattern, reason) := p.notApplicable[i];
    var cell := Cell(NotApplicable, Some(reason));
    cells := before;
    for j := 0 to |reg.options|
      invariant cells == before + Stamp(rules, reg.options[..j], pattern, cell)
    {
      var key := reg.options[j];
      StampNext(rules, reg.options[..j], pattern, cell, before, key);
      assert reg.options[..j + 1] == reg.options[..j] + [key];
      if rules.matches(key, pattern) {
        cells := cells[key := cell];
      }
    }
    assert reg.options[..|reg.options|] == reg.options;
  }

  // ---------------------------------------------------------------- what the lists of a profile say

  ghost predicate LastHit(list: seq<(string, string)>, hits: string -> bool, i: int) {
    0 <= i < |list| && hits(list[i].0) && forall j :: i < j < |list| ==> !hits(list[j].0)
  }

  ghost predicate NoHit(list: seq<(string, string)>, hits: string -> bool) {
    forall i :: 0 <= i < |list| ==> !hits(list[i].0)
  }

  ghost function Named(key: string): string -> bool {
    (k: string) => k == key
  }

  ghost function Explicitly(key: string): string -> bool {
    (k: string) => !Wildcard(k) && k == key
  }

  ghost function ByWildcard(rules: Rules, key: string): string -> bool {
    (k: string) => Wildcard(k) && rules.matches(key, k)
  }

  ghost predicate Mentioned(rules: Rules, p: Profile, key: string) {
    || key in p.supports || !NoHit(p.unsupported, Named(key))
    || !NoHit(p.notApplicable, Explicitly(key)) || !NoHit(p.notApplicable, ByWildcard(rules, key))
  }

  /** The cell of a key that the profile mentions: supported before unsupported, before not applicable by name,
      before not applicable by wildcard, and of two lines of one list the later. */
  ghost predicate ListedCell(rules: Rules, p: Profile, key: string, cell: Cell) {
    if key in p.supports then cell == Cell(Supports, None)
    else if !NoHit(p.unsupported, Named(key)) then
      exists i :: LastHit(p.unsupported, Named(key), i) && cell == Cell(Unsupported, Some(p.unsupported[i].1))
    else if !NoHit(p.notApplicable, Explicitly(key)) then
      exists i :: LastHit(p.notApplicable, Explicitly(key), i)
                  && cell == Cell(NotApplicable, Some(p.notApplicable[i].1))
    else
      exists i :: LastHit(p.notApplicable, ByWildcard(rules, key), i)
                  && cell == Cell(NotApplicable, Some(p.notApplicable[i].1))
  }

  ghost function Class(p: Profile, e: Entry): nat
    requires Has(p, e)
  {
    match e
    case Na(i) => if Wildcard(p.notApplicable[i].0) then 0 else 1
    case Uns(_) => 2
    case Sup(_) => 3
  }

  /** Line `f` is written before line `e`. */
  ghost predicate Before(p: Profile, f: Entry, e: Entry)
    requires Has(p, f) && Has(p, e)
  {
    Class(p, f) < Class(p, e) || (Class(p, f) == Class(p, e) && f.i < e.i)
  }

  ghost predicate InOrder(p: Profile, entries: seq<Entry>)
    requires AllHas(p, entries)
  {
    forall a, b :: 0 <= a < b < |entries| ==> Before(p, entries[a], entries[b])
  }

  lemma {:induction false} NaLinesInOrder(p: Profile, wild: bool, k: nat)
    requires k <= |p.notApplicable|
    ensures InOrder(p, NaLines(p, wild, k))
    ensures
      forall a :: 0 <= a < |NaLines(p, wild, k)| ==>
        NaLines(p, wild, k)[a].i < k && Class(p, NaLines(p, wild, k)[a]) == if wild then 0 else 1
    decreases k
  {
    if k > 0 {
      NaLinesInOrder(p, wild, k - 1);
    }
  }

  lemma JoinInOrder(p: Profile, low: seq<Entry>, high: seq<Entry>)
    requires AllHas(p, low) && AllHas(p, high) && InOrder(p, low) && InOrder(p, high)
    requires forall a, b :: 0 <= a < |low| && 0 <= b < |high| ==> Class(p, low[a]) < Class(p, high[b])
    ensures AllHas(p, low + high) && InOrder(p, low + high)
  {
  }

  lemma WriteOrderInOrder(p: Profile)
    ensures InOrder(p, WriteOrder(p))
  {
    var wild, named := NaLines(p, true, |p.notApplicable|), NaLines(p, false, |p.notApplicable|);
    var uns, sup := UnsLines(p, |p.unsupported|), SupLines(p, |p.supports|);
    NaLinesInOrder(p, true, |p.notApplicable|);
    NaLinesInOrder(p, false, |p.notApplicable|);
    JoinInOrder(p, wild, named);
    JoinInOrder(p, wild + named, uns);
    JoinInOrder(p, wild + named + uns, sup);
  }

  /** The cell of a key is that of the last line, in write order, that settles it. */
  lemma OwnCellLine(reg: Registry, rules: Rules, p: Profile, key: string) returns (e: Entry)
    requires key in Own(reg, rules, p)
    ensures Has(p, e) && Settles(rules, p, e, key) && Own(reg, rules, p)[key] == CellOf(p, e)
    ensures forall f :: Has(p, f) && Settles(rules, p, f, key) ==> f == e || Before(p, f, e)
  {
    var entries := WriteOrder(p);
    LastWriterWins(reg, rules, p, entries, key);
    WriteOrderInOrder(p);
    var w := Writer(rules, p, entries, key).value;
    e := entries[w];
    forall f | Has(p, f) && Settles(rules, p, f, key)
      ensures f == e || Before(p, f, e)
    {
      EveryLineIsWritten(p, f);
      var j :| 0 <= j < |entries| && entries[j] == f;
      WriterIsLast(rules, p, entries, key, j);
    }
  }

  lemma MentionedHasLine(rules: Rules, p: Profile, key: string)
    requires Mentioned(rules, p, key)
    ensures SomeLineSettles(rules, p, key)
  {
    if key in p.supports {
      var i :| 0 <= i < |p.supports| && p.supports[i] == key;
      assert Settles(rules, p, Sup(i), key);
    } else if !NoHit(p.unsupported, Named(key)) {
      var i :| 0 <= i < |p.unsupported| && Named(key)(p.unsupported[i].0);
      assert Settles(rules, p, Uns(i), key);
    } else if !NoHit(p.notApplicable, Explicitly(key)) {
      var i :| 0 <= i < |p.notApplicable| && Explicitly(key)(p.notApplicable[i].0);
      assert Settles(rules, p, Na(i), key);
    } else {
      var i :| 0 <= i < |p.notApplicable| && ByWildcard(rules, key)(p.notApplicable[i].0);
      assert Settles(rules, p, Na(i), key);
    }
  }

  lemma LineMentions(rules: Rules, p: Profile, key: string, e: Entry)
    requires Has(p, e) && Settles(rules, p, e, key)
    ensures Mentioned(rules, p, key)
  {
    match e
    case Sup(i) => assert p.supports[i] == key;
    case Uns(i) => assert Named(key)(p.unsupported[i].0);
    case Na(i) =>
      var pattern := p.notApplicable[i].0;
      assert Explicitly(key)(pattern) || ByWildcard(rules, key)(pattern);
  }

  lemma MentionedIffLine(rules: Rules, p: Profile, key: string)
    ensures Mentioned(rules, p, key) <==> SomeLineSettles(rules, p, key)
  {
    if Mentioned(rules, p, key) {
      MentionedHasLine(rules, p, key);
    }
    if SomeLineSettles(rules, p, key) {
      var e :| Has(p, e) && Settles(rules, p, e, key);
      LineMentions(rules, p, key, e);
    }
  }

  /** A line that settles the key last gives the cell that the lists say. */
  lemma LastLineIsListed(rules: Rules, p: Profile, key: string, e: Entry)
    requires Has(p, e) && Settles(rules, p, e, key)
    requires forall f :: Has(p, f) && Settles(rules, p, f, key) ==> f == e || Before(p, f, e)
    ensures ListedCell(rules, p, key, CellOf(p, e))
  {
    if key in p.supports {
      var j :| 0 <= j < |p.supports| && p.supports[j] == key;
      assert Settles(rules, p, Sup(j), key);
    }
    forall j | 0 <= j < |p.unsupported| && Named(key)(p.unsupported[j].0)
      ensures e == Uns(j) || Before(p, Uns(j), e)
    {
      assert Settles(rules, p, Uns(j), key);
    }
    forall j | 0 <= j < |p.notApplicable|
               && (Explicitly(key)(p.notApplicable[j].0) || ByWildcard(rules, key)(p.notApplicable[j].0))
      ensures e == Na(j) || Before(p, Na(j), e)
    {
      assert Settles(rules, p, Na(j), key);
    }
    match e
    case Sup(i) => assert p.supports[i] in p.supports;
    case Uns(i) => assert LastHit(p.unsupported, Named(key), i);
    case Na(i) =>
      if Wildcard(p.notApplicable[i].0) {
        assert LastHit(p.notApplicable, ByWildcard(rules, key), i);
      } else {
        assert LastHit(p.notApplicable, Explicitly(key), i);
      }
  }

  /** The cells of a profile, on its own lists. */
  lemma OwnCellOnLists(reg: Registry, rules: Rules, p: Profile, key: string)
    ensures key in Own(reg, rules, p) <==> key in reg.options && Mentioned(rules, p, key)
    ensures key in Own(reg, rules, p) ==> ListedCell(rules, p, key, Own(reg, rules, p)[key])
  {
    OwnCellMeaning(reg, rules, p, key);
    MentionedIffLine(rules, p, key);
    if key in Own(reg, rules, p) {
      var e := OwnCellLine(reg, rules, p, key);
      LastLineIsListed(rules, p, key, e);
    }
  }

  /** Member `i` of the climb is the nearest that mentions the key, and its lists give the cell. */
  ghost predicate GivenBy(rules: Rules, up: seq<Profile>, i: int, key: string, cell: Cell) {
    && 0 <= i < |up| && Mentioned(rules, up[i], key) && ListedCell(rules, up[i], key, cell)
    && forall j :: 0 <= j < i ==> !Mentioned(rules, up[j], key)
  }

  /** Exactly the options that some member mentions have a cell, and the nearest such member gives it. */
  ghost predicate IsTable(reg: Registry, rules: Rules, up: seq<Profile>, cells: map<string, Cell>) {
    forall key ::
      && (key in cells <==> key in reg.options && exists i :: 0 <= i < |up| && Mentioned(rules, up[i], key))
      && (key in cells ==> exists i :: GivenBy(rules, up, i, key, cells[key]))
  }

  lemma SettledIsTable(reg: Registry, rules: Rules, up: seq<Profile>)
    ensures IsTable(reg, rules, up, Settled(reg, rules, Reverse(up)))
  {
    var cells := Settled(reg, rules, Reverse(up));
    forall key
      ensures key in cells <==> key in reg.options && exists i :: 0 <= i < |up| && Mentioned(rules, up[i], key)
      ensures key in cells ==> exists i :: GivenBy(rules, up, i, key, cells[key])
    {
      SettledKeyInTable(reg, rules, up, key);
    }
  }

  lemma OwnIsTable(reg: Registry, rules: Rules, p: Profile)
    ensures IsTable(reg, rules, [p], Own(reg, rules, p))
  {
    var up, cells := [p], Own(reg, rules, p);
    assert up[0] == p;
    forall key
      ensures key in cells <==> key in reg.options && exists i :: 0 <= i < |up| && Mentioned(rules, up[i], key)
      ensures key in cells ==> exists i :: GivenBy(rules, up, i, key, cells[key])
    {
      OwnCellOnLists(reg, rules, p, key);
      if key in cells {
        assert GivenBy(rules, up, 0, key, cells[key]);
      }
    }
  }

  lemma SettledKeyInTable(reg: Registry, rules: Rules, up: seq<Profile>, key: string)
    ensures
      var cells := Settled(reg, rules, Reverse(up));
      && (key in cells <==> key in reg.options && exists i :: 0 <= i < |up| && Mentioned(rules, up[i], key))
      && (key in cells ==> exists i :: GivenBy(rules, up, i, key, cells[key]))
  {
    var chain := Reverse(up);
    NearestSettles(reg, rules, chain, key);
    var w := Nearest(reg, rules, chain, key);
    if w.Some? {
      var i := |up| - 1 - w.value;
      OwnCellOnLists(reg, rules, up[i], key);
      forall j | 0 <= j < i
        ensures !Mentioned(rules, up[j], key)
      {
        OwnCellOnLists(reg, rules, up[j], key);
        assert chain[|up| - 1 - j] == up[j];
        if key in Own(reg, rules, up[j]) {
          NearestIsLast(reg, rules, chain, key, |up| - 1 - j);
        }
      }
      assert GivenBy(rules, up, i, key, Settled(reg, rules, chain)[key]);
    } else if i :| 0 <= i < |up| && key in reg.options && Mentioned(rules, up[i], key) {
      OwnCellOnLists(reg, rules, up[i], key);
      assert chain[|up| - 1 - i] == up[i];
      NearestIsLast(reg, rules, chain, key, |up| - 1 - i);
    }
  }

  // ---------------------------------------------------------------- settling

  ghost function Own(reg: Registry, rules: Rules, p: Profile): map<string, Cell> {
    WrittenAll(reg, rules, p, WriteOrder(p))
  }

  /** Cells of a chain, root first: nearer profiles override. */
  ghost function Settled(reg: Registry, rules: Rules, chain: seq<Profile>): map<string, Cell> {
    if chain == [] then map[] else Settled(reg, rules, chain[..|chain| - 1]) + Own(reg, rules, chain[|chain| - 1])
  }

  method SettleChain(reg: Registry, rules: Rules, chain: seq<Profile>) returns (cells: map<string, Cell>)
    ensures cells == Settled(reg, rules, chain)
  {
    cells := map[];
    for i := 0 to |chain|
      invariant cells == Settled(reg, rules, chain[..i])
    {
      var own := OwnCells(reg, rules, chain[i]);
      cells := cells + own;
      assert chain[..i + 1][..i] == chain[..i];
    }
    assert chain[..|chain|] == chain;
  }

  datatype SettleError = UnknownProfile | BrokenExtends(problem: ChainProblem)

  /** The answer for a registered profile: the table of its climb to a root, or why there is no such climb. */
  ghost predicate SettlesAs(reg: Registry, rules: Rules, p: Profile, r: Result<map<string, Cell>, SettleError>) {
    exists up :: Climbs(reg, up, p) && AnswersFor(reg, rules, up, r)
  }

  ghost predicate AnswersFor(
      reg: Registry, rules: Rules, up: seq<Profile>, r: Result<map<string, Cell>, SettleError>)
    requires up != []
  {
    match r
    case Ok(cells) => Stops(reg, up, None) && IsTable(reg, rules, up, cells)
    case Err(BrokenExtends(problem)) => Stops(reg, up, Some(problem))
    case Err(UnknownProfile) => false
  }

  lemma SettledAnswers(reg: Registry, rules: Rules, p: Profile)
    requires Valid(reg)
    ensures
      var up := Ancestry(reg, p, {p.name});
      SettlesAs(
        reg, rules, p, if up.1.Some? then Err(BrokenExtends(up.1.value)) else Ok(Settled(reg, rules, Reverse(up.0))))
  {
    ChainClimbs(reg, p);
    var (up, problem) := Ancestry(reg, p, {p.name});
    if problem.None? {
      SettledIsTable(reg, rules, up);
      assert AnswersFor(reg, rules, up, Ok(Settled(reg, rules, Reverse(up))));
    } else {
      assert AnswersFor(reg, rules, up, Err(BrokenExtends(problem.value)));
    }
  }

  method Settle(reg: Registry, rules: Rules, name: string) returns (r: Result<map<string, Cell>, SettleError>)
    ensures name !in reg.profiles ==> r == Err(UnknownProfile)
    ensures name in reg.profiles ==>
              var up := Ancestry(reg, reg.profiles[name], {reg.profiles[name].name});
              r == if up.1.Some? then Err(BrokenExtends(up.1.value)) else Ok(Settled(reg, rules, Reverse(up.0)))
    ensures Valid(reg) && name in reg.profiles ==> SettlesAs(reg, rules, reg.profiles[name], r)
    ensures Valid(reg) && name in reg.profiles && AllClean(reg, rules) ==>
              r.Ok? && SettlesCleanly(reg, rules, reg.profiles[name], r.value)
  {
    if name !in reg.profiles {
      return Err(UnknownProfile);
    }
    var chain, problem := Chain(reg, reg.profiles[name]);
    if Valid(reg) {
      SettledAnswers(reg, rules, reg.profiles[name]);
      if AllClean(reg, rules) {
        CleanTables(reg, rules, name);
      }
    }
    if problem.Some? {
      return Err(BrokenExtends(problem.value));
    }
    var cells := SettleChain(reg, rules, chain);
    return Ok(cells);
  }

  /** Position of the last listed line that settles the key. */
  ghost function Writer(rules: Rules, p: Profile, entries: seq<Entry>, key: string): (w: Option<nat>)
    requires AllHas(p, entries)
    ensures w.Some? ==> w.value < |entries| && Settles(rules, p, entries[w.value], key)
  {
    if entries == [] then None
    else if Settles(rules, p, entries[|entries| - 1], key) then Some(|entries| - 1)
    else Writer(rules, p, entries[..|entries| - 1], key)
  }

  lemma {:induction false} WriterIsLast(rules: Rules, p: Profile, entries: seq<Entry>, key: string, j: nat)
    requires AllHas(p, entries) && j < |entries| && Settles(rules, p, entries[j], key)
    ensures Writer(rules, p, entries, key).Some? && j <= Writer(rules, p, entries, key).value
    decreases |entries|
  {
    if j < |entries| - 1 {
      WriterIsLast(rules, p, entries[..|entries| - 1], key, j);
    }
  }

  /** A cell comes from the last line written that settles the key. */
  lemma {:induction false} LastWriterWins(reg: Registry, rules: Rules, p: Profile, entries: seq<Entry>, key: string)
    requires AllHas(p, entries)
    ensures
      var cells, w := WrittenAll(reg, rules, p, entries), Writer(rules, p, entries, key);
      && (key in cells <==> key in reg.options && w.Some?)
      && (key in cells ==> cells[key] == CellOf(p, entries[w.value]))
    decreases |entries|
  {
    if entries != [] {
      LastWriterWins(reg, rules, p, entries[..|entries| - 1], key);
    }
  }

  lemma {:induction false} NaLineListed(p: Profile, wild: bool, k: nat, i: nat)
    requires i < k <= |p.notApplicable| && Wildcard(p.notApplicable[i].0) == wild
    ensures Na(i) in NaLines(p, wild, k)
    decreases k
  {
    if i < k - 1 {
      NaLineListed(p, wild, k - 1, i);
    }
  }

  lemma EveryLineIsWritten(p: Profile, e: Entry)
    requires Has(p, e)
    ensures e in WriteOrder(p)
  {
    var na := |p.notApplicable|;
    match e
    case Sup(i) => assert SupLines(p, |p.supports|)[i] == e;
    case Uns(i) => assert UnsLines(p, |p.unsupported|)[i] == e;
    case Na(i) => NaLineListed(p, Wildcard(p.notApplicable[i].0), na, i);
  }

  /** At most one line of the profile settles each registered key. */
  ghost predicate SettledOnce(reg: Registry, rules: Rules, p: Profile) {
    forall key, e, f ::
      key in reg.options && Has(p, e) && Has(p, f) && Settles(rules, p, e, key) && Settles(rules, p, f, key) ==> e == f
  }

  ghost predicate SomeLineSettles(rules: Rules, p: Profile, key: string) {
    exists e :: Has(p, e) && Settles(rules, p, e, key)
  }

  lemma OwnCellMeaning(reg: Registry, rules: Rules, p: Profile, key: string)
    ensures key in Own(reg, rules, p) <==> key in reg.options && SomeLineSettles(rules, p, key)
    ensures key in Own(reg, rules, p) && SettledOnce(reg, rules, p) ==>
              exists e :: Has(p, e) && Settles(rules, p, e, key) && Own(reg, rules, p)[key] == CellOf(p, e)
                          && forall f :: Has(p, f) && Settles(rules, p, f, key) ==> f == e
  {
    var entries := WriteOrder(p);
    LastWriterWins(reg, rules, p, entries, key);
    var w := Writer(rules, p, entries, key);
    if SomeLineSettles(rules, p, key) {
      var e :| Has(p, e) && Settles(rules, p, e, key);
      EveryLineIsWritten(p, e);
      var i :| 0 <= i < |entries| && entries[i] == e;
      WriterIsLast(rules, p, entries, key, i);
    }
    if w.Some? {
      assert Has(p, entries[w.value]);
    }
  }

  /** Position of the nearest profile of the chain that settles the key. */
  ghost function Nearest(reg: Registry, rules: Rules, chain: seq<Profile>, key: string): (w: Option<nat>)
    ensures w.Some? ==> w.value < |chain| && key in Own(reg, rules, chain[w.value])
  {
    if chain == [] then None
    else if key in Own(reg, rules, chain[|chain| - 1]) then Some(|chain| - 1)
    else Nearest(reg, rules, chain[..|chain| - 1], key)
  }

  lemma {:induction false} NearestIsLast(reg: Registry, rules: Rules, chain: seq<Profile>, key: string, j: nat)
    requires j < |chain| && key in Own(reg, rules, chain[j])
    ensures Nearest(reg, rules, chain, key).Some? && j <= Nearest(reg, rules, chain, key).value
    decreases |chain|
  {
    if j < |chain| - 1 {
      NearestIsLast(reg, rules, chain[..|chain| - 1], key, j);
    }
  }

  /** A settled cell comes from the nearest profile of the chain that settles the key. */
  lemma {:induction false} NearestSettles(reg: Registry, rules: Rules, chain: seq<Profile>, key: string)
    ensures
      var cells, w := Settled(reg, rules, chain), Nearest(reg, rules, chain, key);
      (key in cells <==> w.Some?) && (key in cells ==> cells[key] == Own(reg, rules, chain[w.value])[key])
    decreases |chain|
  {
    if chain != [] {
      NearestSettles(reg, rules, chain[..|chain| - 1], key);
    }
  }

  // ---------------------------------------------------------------- the checker

  datatype ProblemKind =
    | WildcardNotAllowed | UnknownKey | BadReason | StaleWildcard | SettledTwice
    | BrokenChain(problem: ChainProblem) | NotSettled

  datatype Problem = Problem(key: string, kind: ProblemKind)

  /** A line that is fine on its own. */
  ghost predicate LineOk(reg: Registry, rules: Rules, p: Profile, e: Entry)
    requires Has(p, e)
  {
    match e
    case Sup(i) => !Wildcard(p.supports[i]) && p.supports[i] in reg.options
    case Uns(i) =>
      var (key, reason) := p.unsupported[i];
      rules.goodReason(reason) && !Wildcard(key) && key in reg.options
    case Na(i) =>
      var (key, reason) := p.notApplicable[i];
      && rules.goodReason(reason)
      && if Wildcard(key) then exists k :: k in reg.options && rules.matches(k, key) else key in reg.options
  }

  /** The lines in the order the checker visits them. */
  ghost function Lines(p: Profile): (lines: seq<Entry>)
    ensures AllHas(p, lines)
  {
    SupLines(p, |p.supports|) + UnsLines(p, |p.unsupported|) + AllNaLines(p, |p.notApplicable|)
  }

  ghost function AllNaLines(p: Profile, k: nat): (entries: seq<Entry>)
    requires k <= |p.notApplicable|
    ensures AllHas(p, entries) && |entries| == k && forall i :: 0 <= i < k ==> entries[i] == Na(i)
  {
    seq(k, i requires 0 <= i < k => Na(i))
  }

  /** The visited lines that settle a key. */
  ghost function Sources(rules: Rules, p: Profile, lines: seq<Entry>, key: string): seq<Entry>
    requires AllHas(p, lines)
  {
    if lines == [] then []
    else
      var k := |lines| - 1;
      Sources(rules, p, lines[..k], key) + (if Settles(rules, p, lines[k], key) then [lines[k]] else [])
  }

  lemma {:induction false} SourcesMember(rules: Rules, p: Profile, lines: seq<Entry>, key: string, e: Entry)
    requires AllHas(p, lines)
    ensures e in Sources(rules, p, lines, key) <==> e in lines && Has(p, e) && Settles(rules, p, e, key)
    decreases |lines|
  {
    if lines != [] {
      var k := |lines| - 1;
      SourcesMember(rules, p, lines[..k], key, e);
      assert lines == lines[..k] + [lines[k]];
    }
  }

  lemma {:induction false} SourcesDistinct(rules: Rules, p: Profile, lines: seq<Entry>, key: string)
    requires AllHas(p, lines) && Distinct(lines)
    ensures Distinct(Sources(rules, p, lines, key))
    decreases |lines|
  {
    if lines != [] {
      var k := |lines| - 1;
      SourcesDistinct(rules, p, lines[..k], key);
      SourcesMember(rules, p, lines[..k], key, lines[k]);
      var prior := Sources(rules, p, lines[..k], key);
      assert lines[k] !in lines[..k];
      assert forall i :: 0 <= i < |prior| ==> prior[i] in prior;
    }
  }

  /** Two lines settle a key iff its list of sources is longer than one. */
  lemma SourcesCount(rules: Rules, p: Profile, lines: seq<Entry>, key: string)
    requires AllHas(p, lines) && Distinct(lines)
    ensures |Sources(rules, p, lines, key)| > 1 <==>
            exists e, f :: e in lines && f in lines && e != f && Has(p, e) && Has(p, f)
                           && Settles(rules, p, e, key) && Settles(rules, p, f, key)
  {
    var sources := Sources(rules, p, lines, key);
    SourcesDistinct(rules, p, lines, key);
    if |sources| > 1 {
      SourcesMember(rules, p, lines, key, sources[0]);
      SourcesMember(rules, p, lines, key, sources[1]);
    }
    if e, f :| e in lines && f in lines && e != f && Has(p, e) && Has(p, f)
               && Settles(rules, p, e, key) && Settles(rules, p, f, key) {
      SourcesMember(rules, p, lines, key, e);
      SourcesMember(rules, p, lines, key, f);
      assert e in sources && f in sources;
    }
  }

  lemma LinesListAll(p: Profile)
    ensures Distinct(Lines(p))
    ensures forall e :: e in Lines(p) <==> Has(p, e)
  {
    var sup, uns, na := SupLines(p, |p.supports|), UnsLines(p, |p.unsupported|), AllNaLines(p, |p.notApplicable|);
    forall e ensures e in Lines(p) <==> Has(p, e) {
      match e
      case Sup(i) => assert Has(p, e) ==> sup[i] == e;
      case Uns(i) => assert Has(p, e) ==> uns[i] == e;
      case Na(i) => assert Has(p, e) ==> na[i] == e;
    }
  }

  /** The dict of sources holds, for every option, the visited lines that settle it. */
  ghost predicate Tracks(reg: Registry, rules: Rules, p: Profile, settledBy: map<string, seq<Entry>>, lines: seq<Entry>)
    requires AllHas(p, lines)
  {
    forall key :: key in reg.options ==> SourcesOf(settledBy, key) == Sources(rules, p, lines, key)
  }

  function SourcesOf(settledBy: map<string, seq<Entry>>, key: string): seq<Entry> {
    if key in settledBy then settledBy[key] else []
  }

  /** `settledBy.setdefault(key, []).append(e)`. */
  function Append(settledBy: map<string, seq<Entry>>, key: string, e: Entry): map<string, seq<Entry>> {
    settledBy[key := SourcesOf(settledBy, key) + [e]]
  }

  /** One line adds itself to the sources of exactly the options it settles. */
  ghost predicate Extends(
      reg: Registry, rules: Rules, p: Profile, before: map<string, seq<Entry>>, after: map<string, seq<Entry>>,
      e: Entry)
    requires Has(p, e)
  {
    forall key :: key in reg.options ==>
      SourcesOf(after, key) == SourcesOf(before, key) + (if Settles(rules, p, e, key) then [e] else [])
  }

  lemma TrackNext(
      reg: Registry, rules: Rules, p: Profile, before: map<string, seq<Entry>>, after: map<string, seq<Entry>>,
      lines: seq<Entry>, e: Entry)
    requires AllHas(p, lines) && Has(p, e) && Tracks(reg, rules, p, before, lines)
             && Extends(reg, rules, p, before, after, e)
    ensures AllHas(p, lines + [e]) && Tracks(reg, rules, p, after, lines + [e])
  {
    assert (lines + [e])[..|lines|] == lines;
  }

  ghost predicate LinesOk(reg: Registry, rules: Rules, p: Profile, lines: seq<Entry>)
    requires AllHas(p, lines)
  {
    forall i :: 0 <= i < |lines| ==> LineOk(reg, rules, p, lines[i])
  }

  lemma LinesOkNext(reg: Registry, rules: Rules, p: Profile, lines: seq<Entry>, e: Entry)
    requires AllHas(p, lines) && Has(p, e)
    ensures AllHas(p, lines + [e])
    ensures LinesOk(reg, rules, p, lines + [e]) <==> LinesOk(reg, rules, p, lines) && LineOk(reg, rules, p, e)
  {
    var all := lines + [e];
    if LinesOk(reg, rules, p, all) {
      assert forall i :: 0 <= i < |lines| ==> all[i] == lines[i];
      assert all[|lines|] == e;
    }
  }

  method CheckSupported(reg: Registry, rules: Rules, p: Profile, i: nat, before: map<string, seq<Entry>>)
    returns (problems: seq<Problem>, settledBy: map<string, seq<Entry>>)
    requires Valid(reg) && i < |p.supports|
    ensures Extends(reg, rules, p, before, settledBy, Sup(i)) && (problems == [] <==> LineOk(reg, rules, p, Sup(i)))
  {
    var key := p.supports[i];
    problems, settledBy := [], before;
    if Wildcard(key) {
      problems := [Problem(key, WildcardNotAllowed)];
    } else if key !in reg.options {
      problems := [Problem(key, UnknownKey)];
    } else {
      settledBy := Append(settledBy, key, Sup(i));
    }
  }

  method CheckUnsupported(reg: Registry, rules: Rules, p: Profile, i: nat, before: map<string, seq<Entry>>)
    returns (problems: seq<Problem>, settledBy: map<string, seq<Entry>>)
    requires Valid(reg) && i < |p.unsupported|
    ensures Extends(reg, rules, p, before, settledBy, Uns(i)) && (problems == [] <==> LineOk(reg, rules, p, Uns(i)))
  {
    var (key, reason) := p.unsupported[i];
    problems, settledBy := [], before;
    if !rules.goodReason(reason) {
      problems := [Problem(key, BadReason)];
    }
    if Wildcard(key) {
      problems := problems + [Problem(key, WildcardNotAllowed)];
    } else if key !in reg.options {
      problems := problems + [Problem(key, UnknownKey)];
    } else {
      settledBy := Append(settledBy, key, Uns(i));
    }
  }

  method CheckNotApplicable(reg: Registry, rules: Rules, p: Profile, i: nat, before: map<string, seq<Entry>>)
    returns (problems: seq<Problem>, settledBy: map<string, seq<Entry>>)
    requires Valid(reg) && i < |p.notApplicable|
    ensures Extends(reg, rules, p, before, settledBy, Na(i)) && (problems == [] <==> LineOk(reg, rules, p, Na(i)))
  {
    var (key, reason) := p.notApplicable[i];
    problems, settledBy := [], before;
    if !rules.goodReason(reason) {
      problems := [Problem(key, BadReason)];
    }
    if Wildcard(key) {
      if !exists k :: k in reg.options && rules.matches(k, key) {
        problems := problems + [Problem(key, StaleWildcard)];
      }
      settledBy := AppendMatches(reg, rules, p, settledBy, i);
    } else if key !in reg.options {
      problems := problems + [Problem(key, UnknownKey)];
    } else {
      settledBy := Append(settledBy, key, Na(i));
    }
  }

  method AppendMatches(reg: Registry, rules: Rules, p: Profile, before: map<string, seq<Entry>>, i: nat)
    returns (settledBy: map<string, seq<Entry>>)
    requires Valid(reg) && i < |p.notApplicable| && Wildcard(p.notApplicable[i].0)
    ensures Extends(reg, rules, p, before, settledBy, Na(i))
  {
    settledBy := before;
    var pattern := p.notApplicable[i].0;
    for j := 0 to |reg.options|
      invariant forall m :: 0 <= m < |reg.options| ==>
                  SourcesOf(settledBy, reg.options[m])
                  == SourcesOf(before, reg.options[m])
                     + (if m < j && rules.matches(reg.options[m], pattern) then [Na(i)] else [])
    {
      if rules.matches(reg.options[j], pattern) {
        settledBy := Append(settledBy, reg.options[j], Na(i));
      }
    }
  }

  /** Problems and sources after the visited lines. */
  ghost predicate Report(
      reg: Registry, rules: Rules, p: Profile, lines: seq<Entry>, problems: seq<Problem>,
      settledBy: map<string, seq<Entry>>)
  {
    AllHas(p, lines) && Tracks(reg, rules, p, settledBy, lines) && (problems == [] <==> LinesOk(reg, rules, p, lines))
  }

  /** First loop: the supported keys. */
  method VisitSupports(
      reg: Registry, rules: Rules, p: Profile, problems0: seq<Problem>, settledBy0: map<string, seq<Entry>>,
      ghost prior: seq<Entry>)
    returns (problems: seq<Problem>, settledBy: map<string, seq<Entry>>)
    requires Valid(reg) && Report(reg, rules, p, prior, problems0, settledBy0)
    ensures Report(reg, rules, p, prior + SupLines(p, |p.supports|), problems, settledBy)
  {
    problems, settledBy := problems0, settledBy0;
    ghost var lines := prior;
    for i := 0 to |p.supports|
      invariant lines == prior + SupLines(p, i) && Report(reg, rules, p, lines, problems, settledBy)
    {
      var found, after := CheckSupported(reg, rules, p, i, settledBy);
      NextLine(reg, rules, p, settledBy, after, lines, Sup(i), problems, found);
      lines := lines + [Sup(i)];
      problems, settledBy := problems + found, after;
    }
  }

  /** Second loop, first list: the unsupported keys. */
  method VisitUnsupported(
      reg: Registry, rules: Rules, p: Profile, problems0: seq<Problem>, settledBy0: map<string, seq<Entry>>,
      ghost prior: seq<Entry>)
    returns (problems: seq<Problem>, settledBy: map<string, seq<Entry>>)
    requires Valid(reg) && Report(reg, rules, p, prior, problems0, settledBy0)
    ensures Report(reg, rules, p, prior + UnsLines(p, |p.unsupported|), problems, settledBy)
  {
    problems, settledBy := problems0, settledBy0;
    ghost var lines := prior;
    for i := 0 to |p.unsupported|
      invariant lines == prior + UnsLines(p, i) && Report(reg, rules, p, lines, problems, settledBy)
    {
      var found, after := CheckUnsupported(reg, rules, p, i, settledBy);
      NextLine(reg, rules, p, settledBy, after, lines, Uns(i), problems, found);
      lines := lines + [Uns(i)];
      problems, settledBy := problems + found, after;
    }
  }

  /** Second loop, second list: the keys and wildcards that are not applicable. */
  method VisitNotApplicable(
      reg: Registry, rules: Rules, p: Profile, problems0: seq<Problem>, settledBy0: map<string, seq<Entry>>,
      ghost prior: seq<Entry>)
    returns (problems: seq<Problem>, settledBy: map<string, seq<Entry>>)
    requires Valid(reg) && Report(reg, rules, p, prior, problems0, settledBy0)
    ensures Report(reg, rules, p, prior + AllNaLines(p, |p.notApplicable|), problems, settledBy)
  {
    problems, settledBy := problems0, settledBy0;
    ghost var lines := prior;
    for i := 0 to |p.notApplicable|
      invariant lines == prior + AllNaLines(p, i) && Report(reg, rules, p, lines, problems, settledBy)
    {
      var found, after := CheckNotApplicable(reg, rules, p, i, settledBy);
      NextLine(reg, rules, p, settledBy, after, lines, Na(i), problems, found);
      lines := lines + [Na(i)];
      problems, settledBy := problems + found, after;
    }
  }

  /** The loops over the profile's own lines. */
  method CheckLines(reg: Registry, rules: Rules, p: Profile)
    returns (problems: seq<Problem>, settledBy: map<string, seq<Entry>>)
    requires Valid(reg)
    ensures Report(reg, rules, p, Lines(p), problems, settledBy)
  {
    problems, settledBy := VisitSupports(reg, rules, p, [], map[], []);
    ghost var lines := [] + SupLines(p, |p.supports|);
    problems, settledBy := VisitUnsupported(reg, rules, p, problems, settledBy, lines);
    lines := lines + UnsLines(p, |p.unsupported|);
    problems, settledBy := VisitNotApplicable(reg, rules, p, problems, settledBy, lines);
    lines := lines + AllNaLines(p, |p.notApplicable|);
    assert lines == Lines(p);
  }

  lemma NextLine(
      reg: Registry, rules: Rules, p: Profile, before: map<string, seq<Entry>>, after: map<string, seq<Entry>>,
      lines: seq<Entry>, e: Entry, problems: seq<Problem>, found: seq<Problem>)
    requires Report(reg, rules, p, lines, problems, before) && Has(p, e) && Extends(reg, rules, p, before, after, e)
    requires found == [] <==> LineOk(reg, rules, p, e)
    ensures Report(reg, rules, p, lines + [e], problems + found, after)
  {
    TrackNext(reg, rules, p, before, after, lines, e);
    LinesOkNext(reg, rules, p, lines, e);
  }

  /** What an empty report about one profile means. */
  ghost predicate Clean(reg: Registry, rules: Rules, p: Profile) {
    && (forall e :: Has(p, e) ==> LineOk(reg, rules, p, e))
    && SettledOnce(reg, rules, p)
    && Ancestry(reg, p, {p.name}).1.None?
    && forall key :: key in reg.options ==> key in Settled(reg, rules, Reverse(Ancestry(reg, p, {p.name}).0))
  }

  ghost predicate OwnLinesClean(reg: Registry, rules: Rules, p: Profile) {
    (forall e :: Has(p, e) ==> LineOk(reg, rules, p, e)) && SettledOnce(reg, rules, p)
  }

  lemma LinesOkMeansAll(reg: Registry, rules: Rules, p: Profile)
    ensures LinesOk(reg, rules, p, Lines(p)) <==> forall e :: Has(p, e) ==> LineOk(reg, rules, p, e)
  {
    LinesListAll(p);
    var lines := Lines(p);
    if LinesOk(reg, rules, p, lines) {
      forall e | Has(p, e) ensures LineOk(reg, rules, p, e) {
        assert e in lines;
      }
    } else {
      var i :| 0 <= i < |lines| && !LineOk(reg, rules, p, lines[i]);
      assert Has(p, lines[i]);
    }
  }

  method ProfileProblems(reg: Registry, rules: Rules, p: Profile) returns (problems: seq<Problem>)
    requires Valid(reg)
    ensures problems == [] <==> Clean(reg, rules, p)
  {
    var settledBy;
    problems, settledBy := CheckLines(reg, rules, p);
    LinesOkMeansAll(reg, rules, p);
    problems := CheckRepeats(reg, rules, p, problems, settledBy);
    assert problems == [] <==> OwnLinesClean(reg, rules, p);
    var chain, problem := Chain(reg, p);
    var cells := SettleChain(reg, rules, chain);
    var unsettled := CheckSettled(reg, cells);
    problems := problems + (if problem.Some? then [Problem("", BrokenChain(problem.value))] else []) + unsettled;
  }

  method CheckSettled(reg: Registry, cells: map<string, Cell>) returns (problems: seq<Problem>)
    ensures problems == [] <==> forall key :: key in reg.options ==> key in cells
  {
    problems := [];
    for i := 0 to |reg.options|
      invariant problems == [] <==> forall j :: 0 <= j < i ==> reg.options[j] in cells
    {
      if reg.options[i] !in cells {
        problems := problems + [Problem(reg.options[i], NotSettled)];
      }
    }
  }

  method CheckRepeats(
      reg: Registry, rules: Rules, p: Profile, problems0: seq<Problem>, settledBy: map<string, seq<Entry>>)
    returns (problems: seq<Problem>)
    requires Tracks(reg, rules, p, settledBy, Lines(p))
    ensures problems == [] <==> problems0 == [] && SettledOnce(reg, rules, p)
  {
    var repeats := FindRepeats(reg.options, settledBy);
    RepeatsAreSources(reg, rules, p, settledBy);
    problems := problems0 + repeats;
  }

  method FindRepeats(options: seq<string>, settledBy: map<string, seq<Entry>>) returns (problems: seq<Problem>)
    ensures problems == [] <==> forall j :: 0 <= j < |options| ==> |SourcesOf(settledBy, options[j])| <= 1
  {
    problems := [];
    for i := 0 to |options|
      invariant problems == [] <==> forall j :: 0 <= j < i ==> |SourcesOf(settledBy, options[j])| <= 1
    {
      if |SourcesOf(settledBy, options[i])| > 1 {
        problems := problems + [Problem(options[i], SettledTwice)];
      }
    }
  }

  lemma RepeatsAreSources(reg: Registry, rules: Rules, p: Profile, settledBy: map<string, seq<Entry>>)
    requires Tracks(reg, rules, p, settledBy, Lines(p))
    ensures (forall j :: 0 <= j < |reg.options| ==> |SourcesOf(settledBy, reg.options[j])| <= 1) <==>
            SettledOnce(reg, rules, p)
  {
    LinesListAll(p);
    forall key | key in reg.options
      ensures |SourcesOf(settledBy, key)| > 1 <==>
              exists e, f :: e in Lines(p) && f in Lines(p) && e != f && Has(p, e) && Has(p, f)
                             && Settles(rules, p, e, key) && Settles(rules, p, f, key)
    {
      SourcesCount(rules, p, Lines(p), key);
    }
    if SettledOnce(reg, rules, p) {
      forall j | 0 <= j < |reg.options| ensures |SourcesOf(settledBy, reg.options[j])| <= 1 {
        assert reg.options[j] in reg.options;
      }
    }
  }

  ghost predicate AllClean(reg: Registry, rules: Rules) {
    forall n :: n in reg.profiles ==> Clean(reg, rules, reg.profiles[n])
  }

  datatype Finding = InProfile(name: string, problem: Problem) | MatrixMissing | MatrixStale

  /** The matrix file: none configured, or its text, if there is a file. */
  function MatrixFindings(reg: Registry, rules: Rules, matrix: Option<Option<string>>): seq<Finding> {
    if matrix.None? then []
    else if matrix.value.None? then [MatrixMissing]
    else if matrix.value.value != rules.render(reg) then [MatrixStale]
    else []
  }

  ghost predicate MatrixUpToDate(reg: Registry, rules: Rules, matrix: Option<Option<string>>) {
    matrix.Some? ==> matrix.value == Some(rules.render(reg))
  }

  /** All problems of all profiles, then the matrix file's. */
  method CheckCoverage(reg: Registry, rules: Rules, matrix: Option<Option<string>>) returns (findings: seq<Finding>)
    requires Valid(reg)
    ensures findings == [] <==> AllClean(reg, rules) && MatrixUpToDate(reg, rules, matrix)
  {
    var problems := ProblemsOfAll(reg, rules);
    findings := problems + MatrixFindings(reg, rules, matrix);
  }

  method ProblemsOfAll(reg: Registry, rules: Rules) returns (findings: seq<Finding>)
    requires Valid(reg)
    ensures findings == [] <==> AllClean(reg, rules)
  {
    findings := [];
    var left := reg.profiles.Keys;
    while left != {}
      invariant left <= reg.profiles.Keys
      invariant findings == [] <==> forall n :: n in reg.profiles.Keys - left ==> Clean(reg, rules, reg.profiles[n])
      decreases left
    {
      var name :| name in left;
      var own := ProfileProblems(reg, rules, reg.profiles[name]);
      left := left - {name};
      findings := findings + seq(|own|, i requires 0 <= i < |own| => InProfile(name, own[i]));
    }
  }

  // ---------------------------------------------------------------- soundness

  /** The cell a profile shows for a key: from the one line of the nearest profile that settles it. */
  ghost predicate ComesFromNearest(reg: Registry, rules: Rules, chain: seq<Profile>, key: string, cell: Cell) {
    exists i, e ::
      && 0 <= i < |chain| && Has(chain[i], e) && Settles(rules, chain[i], e, key) && cell == CellOf(chain[i], e)
      && (forall f :: Has(chain[i], f) && Settles(rules, chain[i], f, key) ==> f == e)
      && forall j :: i < j < |chain| ==> !SomeLineSettles(rules, chain[j], key)
  }

  /** An empty report makes the table total: every profile settles, over exactly the registered options,
      and each cell comes from the unique line of the nearest profile that settles it. */
  lemma CoverageIsSound(reg: Registry, rules: Rules, name: string, key: string)
    requires Valid(reg) && AllClean(reg, rules) && name in reg.profiles
    ensures
      var up := Ancestry(reg, reg.profiles[name], {reg.profiles[name].name});
      var cells := Settled(reg, rules, Reverse(up.0));
      && up.1.None?
      && (key in cells <==> key in reg.options)
      && (key in cells ==> ComesFromNearest(reg, rules, Reverse(up.0), key, cells[key]))
  {
    var p := reg.profiles[name];
    var up := Ancestry(reg, p, {p.name}).0;
    var chain := Reverse(up);
    AllCleanSettleOnce(reg, rules);
    CleanIsTotal(reg, rules, name, key);
    ChainSettlesOnce(reg, rules, p, up);
    SettledKeysAreOptions(reg, rules, chain, key);
    if key in Settled(reg, rules, chain) {
      CellComesFromNearest(reg, rules, chain, key);
    }
  }

  ghost predicate Covers(rules: Rules, pattern: string, key: string) {
    if Wildcard(pattern) then rules.matches(key, pattern) else pattern == key
  }

  /** What a cell says is what the profile lists, and nothing else is listed for the key. */
  ghost predicate CellSays(rules: Rules, p: Profile, key: string, cell: Cell) {
    && (cell == Cell(Supports, None) <==> key in p.supports)
    && (forall x :: cell == Cell(Unsupported, Some(x)) <==> (key, x) in p.unsupported)
    && (forall x :: cell == Cell(NotApplicable, Some(x)) <==> CoveredWith(rules, p, key, x))
  }

  ghost predicate CoveredWith(rules: Rules, p: Profile, key: string, reason: string) {
    exists pattern :: (pattern, reason) in p.notApplicable && Covers(rules, pattern, key)
  }

  lemma OnlyLineSays(rules: Rules, p: Profile, key: string, e: Entry)
    requires Has(p, e) && Settles(rules, p, e, key)
    requires forall f :: Has(p, f) && Settles(rules, p, f, key) ==> f == e
    ensures CellSays(rules, p, key, CellOf(p, e))
  {
    var cell := CellOf(p, e);
    if key in p.supports {
      var j :| 0 <= j < |p.supports| && p.supports[j] == key;
      assert Settles(rules, p, Sup(j), key);
    }
    forall x
      ensures cell == Cell(Unsupported, Some(x)) <==> (key, x) in p.unsupported
    {
      if (key, x) in p.unsupported {
        var j :| 0 <= j < |p.unsupported| && p.unsupported[j] == (key, x);
        assert Settles(rules, p, Uns(j), key);
      }
    }
    forall x
      ensures cell == Cell(NotApplicable, Some(x)) <==> CoveredWith(rules, p, key, x)
    {
      OnlyLineCovers(rules, p, key, e, x);
    }
  }

  lemma OnlyLineCovers(rules: Rules, p: Profile, key: string, e: Entry, x: string)
    requires Has(p, e) && Settles(rules, p, e, key)
    requires forall f :: Has(p, f) && Settles(rules, p, f, key) ==> f == e
    ensures CellOf(p, e) == Cell(NotApplicable, Some(x)) <==> CoveredWith(rules, p, key, x)
  {
    if CellOf(p, e) == Cell(NotApplicable, Some(x)) {
      assert (p.notApplicable[e.i].0, x) == p.notApplicable[e.i];
      assert Covers(rules, p.notApplicable[e.i].0, key);
    }
    if CoveredWith(rules, p, key, x) {
      var pattern :| (pattern, x) in p.notApplicable && Covers(rules, pattern, key);
      var j :| 0 <= j < |p.notApplicable| && p.notApplicable[j] == (pattern, x);
      assert Settles(rules, p, Na(j), key);
    }
  }

  /** Every option has a cell, and it says what the nearest member that mentions the option lists for it. */
  ghost predicate IsCleanTable(reg: Registry, rules: Rules, up: seq<Profile>, cells: map<string, Cell>) {
    forall key ::
      && (key in cells <==> key in reg.options)
      && (key in cells ==> exists i :: SaidBy(rules, up, i, key, cells[key]))
  }

  ghost predicate SaidBy(rules: Rules, up: seq<Profile>, i: int, key: string, cell: Cell) {
    && 0 <= i < |up| && Mentioned(rules, up[i], key) && CellSays(rules, up[i], key, cell)
    && forall j :: 0 <= j < i ==> !Mentioned(rules, up[j], key)
  }

  lemma NearestSays(reg: Registry, rules: Rules, up: seq<Profile>, key: string, cell: Cell)
    requires ComesFromNearest(reg, rules, Reverse(up), key, cell)
    ensures exists i :: SaidBy(rules, up, i, key, cell)
  {
    var chain := Reverse(up);
    var i, e :|
      && 0 <= i < |chain| && Has(chain[i], e) && Settles(rules, chain[i], e, key) && cell == CellOf(chain[i], e)
      && (forall f :: Has(chain[i], f) && Settles(rules, chain[i], f, key) ==> f == e)
      && forall j :: i < j < |chain| ==> !SomeLineSettles(rules, chain[j], key);
    var at := |up| - 1 - i;
    OnlyLineSays(rules, chain[i], key, e);
    MentionedIffLine(rules, chain[i], key);
    forall j | 0 <= j < at
      ensures !Mentioned(rules, up[j], key)
    {
      assert chain[|up| - 1 - j] == up[j];
      MentionedIffLine(rules, up[j], key);
    }
    assert SaidBy(rules, up, at, key, cell);
  }

  ghost predicate SettlesCleanly(reg: Registry, rules: Rules, p: Profile, cells: map<string, Cell>) {
    exists up :: Climbs(reg, up, p) && Stops(reg, up, None) && IsCleanTable(reg, rules, up, cells)
  }

  /** After an empty report, the table of every profile is total and says what the lists say. */
  lemma CleanTables(reg: Registry, rules: Rules, name: string)
    requires Valid(reg) && AllClean(reg, rules) && name in reg.profiles
    ensures
      var up := Ancestry(reg, reg.profiles[name], {reg.profiles[name].name});
      up.1.None? && SettlesCleanly(reg, rules, reg.profiles[name], Settled(reg, rules, Reverse(up.0)))
  {
    var p := reg.profiles[name];
    var up := Ancestry(reg, p, {p.name}).0;
    var cells := Settled(reg, rules, Reverse(up));
    ChainClimbs(reg, p);
    CleanIsTotal(reg, rules, name, "");
    forall key
      ensures key in cells <==> key in reg.options
      ensures key in cells ==> exists i :: SaidBy(rules, up, i, key, cells[key])
    {
      CoverageIsSound(reg, rules, name, key);
      if key in cells {
        NearestSays(reg, rules, up, key, cells[key]);
      }
    }
    assert IsCleanTable(reg, rules, up, cells);
  }

  ghost predicate AllSettleOnce(reg: Registry, rules: Rules) {
    forall n :: n in reg.profiles ==> SettledOnce(reg, rules, reg.profiles[n])
  }

  lemma AllCleanSettleOnce(reg: Registry, rules: Rules)
    requires AllClean(reg, rules)
    ensures AllSettleOnce(reg, rules)
  {
    forall n | n in reg.profiles ensures SettledOnce(reg, rules, reg.profiles[n]) {
      assert Clean(reg, rules, reg.profiles[n]);
    }
  }

  lemma CleanIsTotal(reg: Registry, rules: Rules, name: string, key: string)
    requires AllClean(reg, rules) && name in reg.profiles
    ensures
      var up := Ancestry(reg, reg.profiles[name], {reg.profiles[name].name});
      up.1.None? && (key in reg.options ==> key in Settled(reg, rules, Reverse(up.0)))
  {
    assert Clean(reg, rules, reg.profiles[name]);
  }

  lemma ChainSettlesOnce(reg: Registry, rules: Rules, p: Profile, up: seq<Profile>)
    requires Valid(reg) && AllSettleOnce(reg, rules)
    requires p.name in reg.profiles && reg.profiles[p.name] == p && up == Ancestry(reg, p, {p.name}).0
    ensures forall i :: 0 <= i < |up| ==> SettledOnce(reg, rules, Reverse(up)[i])
  {
    forall i | 0 <= i < |up| ensures SettledOnce(reg, rules, Reverse(up)[i]) {
      ChainMemberIsClean(reg, rules, p, up, |up| - 1 - i);
    }
  }

  lemma SettledKeysAreOptions(reg: Registry, rules: Rules, chain: seq<Profile>, key: string)
    ensures key in Settled(reg, rules, chain) ==> key in reg.options
  {
    NearestSettles(reg, rules, chain, key);
    var w := Nearest(reg, rules, chain, key);
    if w.Some? {
      OwnCellMeaning(reg, rules, chain[w.value], key);
    }
  }

  lemma CellComesFromNearest(reg: Registry, rules: Rules, chain: seq<Profile>, key: string)
    requires key in Settled(reg, rules, chain) && forall i :: 0 <= i < |chain| ==> SettledOnce(reg, rules, chain[i])
    ensures ComesFromNearest(reg, rules, chain, key, Settled(reg, rules, chain)[key])
  {
    NearestSettles(reg, rules, chain, key);
    var i := Nearest(reg, rules, chain, key).value;
    var member := chain[i];
    OwnCellMeaning(reg, rules, member, key);
    var e :| Has(member, e) && Settles(rules, member, e, key) && Own(reg, rules, member)[key] == CellOf(member, e)
             && forall f :: Has(member, f) && Settles(rules, member, f, key) ==> f == e;
    forall j | i < j < |chain| ensures !SomeLineSettles(rules, chain[j], key) {
      OwnCellMeaning(reg, rules, chain[j], key);
      if key in Own(reg, rules, chain[j]) {
        NearestIsLast(reg, rules, chain, key, j);
      }
    }
  }

  lemma ChainMemberIsClean(reg: Registry, rules: Rules, p: Profile, up: seq<Profile>, i: nat)
    requires Valid(reg) && AllSettleOnce(reg, rules)
    requires p.name in reg.profiles && reg.profiles[p.name] == p
    requires up == Ancestry(reg, p, {p.name}).0 && i < |up|
    ensures SettledOnce(reg, rules, up[i])
  {
    AncestryRegistered(reg, p, {p.name}, i);
    assert up[i].name in reg.profiles && reg.profiles[up[i].name] == up[i];
  }
}
