/** The DSSST1 tree codec: a nested value becomes a structure tree plus a flat, path-keyed
    tensor map (arctic_platform/wire.py, _encode, _decode, dumps, loads). The safetensors bytes
    are a lossless map and the JSON text is a normalisation function `json`. */
module WireTree {
  import opened Basics

  const ROOT_KEY: string := "__root__"
  const PLACEHOLDER_KEY: string := "__dss_empty__"
  const WIRE_VERSION: string := "DSSST1"

  /** A tensor by value. A 0-d tensor has the empty shape and one element. */
  datatype Tensor = Tensor(shape: seq<nat>, data: seq<int>)

  datatype Key = Str(s: string) | Other(id: int)

  datatype Value =
    | TensorLeaf(t: Tensor)
    | Atom(id: int)
    | Dict(keys: seq<Key>, kids: seq<Value>)
    | Tuple(kids: seq<Value>)
    | List(kids: seq<Value>)

  /** The structure tree: tags t, j, d, l and u of the source. */
  datatype Node =
    | T(key: string, scalar: bool)
    | J(value: Value)
    | D(keys: seq<string>, kids: seq<Node>)
    | L(kids: seq<Node>)
    | U(kids: seq<Node>)

  datatype WireError = KeyNotString | BadVersion | MissingTensor

  predicate HasTensor(v: Value) {
    if v.TensorLeaf? then true
    else if v.Atom? then false
    else exists i :: 0 <= i < |v.kids| && HasTensor(v.kids[i])
  }

  /** Python's own guarantees: one value per key, keys differ, a 0-d tensor holds one number. */
  ghost predicate WellFormed(v: Value) {
    if v.TensorLeaf? then v.t.shape == [] ==> |v.t.data| == 1
    else if v.Atom? then true
    else
      && (v.Dict? ==> |v.keys| == |v.kids| && Distinct(v.keys))
      && forall i :: 0 <= i < |v.kids| ==> WellFormed(v.kids[i])
  }

  predicate Container(v: Value) {
    v.Dict? || v.Tuple? || v.List?
  }

  /** A dict or list without tensors is stored as JSON; a tuple is always walked. */
  predicate Walked(v: Value) {
    v.Tuple? || (Container(v) && HasTensor(v))
  }

  // ---------------------------------------------------------------- paths

  /** `str(n)`. */
  function Digits(n: nat): string {
    if n < 10 then ["0123456789"[n]] else Digits(n / 10) + ["0123456789"[n % 10]]
  }

  /** The dict key or the list index that names child `i`. */
  function Label(v: Value, i: nat): string
    requires v.Dict? ==> i < |v.keys|
  {
    match v
    case Dict(keys, _) => if keys[i].Str? then keys[i].s else ""
    case _ => Digits(i)
  }

  function Join(path: string, name: string): string {
    if path == "" then name else path + "." + name
  }

  function KeyOf(path: string): string {
    if path == "" then ROOT_KEY else path
  }

  // ---------------------------------------------------------------- encoding

  /** Tensor-bearing dicts have string keys only; the encoder raises otherwise. */
  ghost predicate StringKeys(v: Value)
    decreases v, 1
  {
    Walked(v) ==> StringKeysUpTo(v, |v.kids|)
  }

  /** The first `n` children of a walked container encode without an error. */
  ghost predicate StringKeysUpTo(v: Value, n: nat)
    requires Container(v) && n <= |v.kids|
    decreases v, 0, n
  {
    n > 0 ==>
      && StringKeysUpTo(v, n - 1)
      && (v.Dict? && n <= |v.keys| ==> v.keys[n - 1].Str?)
      && StringKeys(v.kids[n - 1])
  }

  lemma {:induction false} StringKeysPrefix(v: Value, m: nat, n: nat)
    requires Container(v) && m <= n <= |v.kids| && StringKeysUpTo(v, n)
    ensures StringKeysUpTo(v, m)
    decreases n
  {
    if m < n {
      StringKeysPrefix(v, m, n - 1);
    }
  }

  /** A 0-d tensor is stored with shape [1]. */
  function Stored(t: Tensor): Tensor {
    if t.shape == [] then Tensor([1], t.data) else t
  }

  ghost function Labels(v: Value): seq<string>
    requires v.Dict?
  {
    seq(|v.keys|, i requires 0 <= i < |v.keys| => Label(v, i))
  }

  /** The structure tree of a value. */
  ghost function Encoded(v: Value, path: string): Node
    requires WellFormed(v)
    decreases v, 1
  {
    if v.TensorLeaf? then T(KeyOf(path), v.t.shape == [])
    else if !Walked(v) then J(v)
    else if v.Dict? then D(Labels(v), EncodedKids(v, path))
    else if v.Tuple? then U(EncodedKids(v, path))
    else L(EncodedKids(v, path))
  }

  ghost function EncodedKids(v: Value, path: string): (nodes: seq<Node>)
    requires WellFormed(v) && Container(v)
    ensures |nodes| == |v.kids|
    decreases v, 0, |v.kids| + 1
  {
    EncodedUpTo(v, path, |v.kids|)
  }

  ghost function EncodedUpTo(v: Value, path: string, n: nat): (nodes: seq<Node>)
    requires WellFormed(v) && Container(v) && n <= |v.kids|
    ensures |nodes| == n
    decreases v, 0, n
  {
    if n == 0 then [] else EncodedUpTo(v, path, n - 1) + [Encoded(v.kids[n - 1], Join(path, Label(v, n - 1)))]
  }

  lemma {:induction false} EncodedAt(v: Value, path: string, n: nat, i: nat)
    requires WellFormed(v) && Container(v) && i < n <= |v.kids|
    ensures EncodedUpTo(v, path, n)[i] == Encoded(v.kids[i], Join(path, Label(v, i)))
    decreases n
  {
    if i < n - 1 {
      EncodedAt(v, path, n - 1, i);
    }
  }

  /** The tensors written, in order: path key and stored tensor source. */
  ghost function Leaves(v: Value, path: string): seq<(string, Tensor)>
    requires WellFormed(v)
    decreases v, 1, 0
  {
    if v.TensorLeaf? then [(KeyOf(path), v.t)]
    else if Walked(v) then LeavesUpTo(v, path, |v.kids|)
    else []
  }

  ghost function LeavesUpTo(v: Value, path: string, n: nat): seq<(string, Tensor)>
    requires WellFormed(v) && Container(v) && n <= |v.kids|
    decreases v, 0, n
  {
    if n == 0 then [] else LeavesUpTo(v, path, n - 1) + Leaves(v.kids[n - 1], Join(path, Label(v, n - 1)))
  }

  ghost function WriteAll(tensors: map<string, Tensor>, leaves: seq<(string, Tensor)>): map<string, Tensor> {
    if leaves == [] then tensors
    else WriteAll(tensors, leaves[..|leaves| - 1])[leaves[|leaves| - 1].0 := Stored(leaves[|leaves| - 1].1)]
  }

  lemma {:induction false} WriteAppend(tensors: map<string, Tensor>, a: seq<(string, Tensor)>, b: seq<(string, Tensor)>)
    ensures WriteAll(tensors, a + b) == WriteAll(WriteAll(tensors, a), b)
    decreases |b|
  {
    if b == [] {
      assert a + b == a;
    } else {
      var k := |b| - 1;
      assert (a + b)[..|a + b| - 1] == a + b[..k];
      WriteAppend(tensors, a, b[..k]);
    }
  }

  /** The encoder: one recursive walk that fills the tensor dict. */
  class Encoder {
    var tensors: map<string, Tensor>

    constructor ()
      ensures tensors == map[]
    {
      tensors := map[];
    }

    method Encode(v: Value, path: string) returns (r: Result<Node, WireError>)
      requires WellFormed(v)
      modifies this
      ensures r.Ok? <==> StringKeys(v)
      ensures r.Ok? ==> r.value == Encoded(v, path) && tensors == WriteAll(old(tensors), Leaves(v, path))
      decreases v, 1
    {
      match v
      case TensorLeaf(t) =>
        var key := KeyOf(path);
        tensors := tensors[key := Stored(t)];
        assert WriteAll(old(tensors), []) == old(tensors);
        assert [(key, t)][..0] == [];
        return Ok(T(key, t.shape == []));
      case Atom(_) =>
        return Ok(J(v));
      case Dict(keys, kids) =>
        if !HasTensor(v) {
          return Ok(J(v));
        }
        var nodes := EncodeKids(v, path);
        return if nodes.Ok? then Ok(D(seq(|keys|, i requires 0 <= i < |keys| => Label(v, i)), nodes.value))
            else Err(nodes.error);
      case Tuple(kids) =>
        var nodes := EncodeKids(v, path);
        return if nodes.Ok? then Ok(U(nodes.value)) else Err(nodes.error);
      case List(kids) =>
        if !HasTensor(v) {
          return Ok(J(v));
        }
        var nodes := EncodeKids(v, path);
        return if nodes.Ok? then Ok(L(nodes.value)) else Err(nodes.error);
    }

    method EncodeKids(v: Value, path: string) returns (r: Result<seq<Node>, WireError>)
      requires WellFormed(v) && Container(v)
      modifies this
      ensures r.Ok? <==> StringKeysUpTo(v, |v.kids|)
      ensures r.Ok? ==> r.value == EncodedKids(v, path)
      ensures r.Ok? ==> tensors == WriteAll(old(tensors), LeavesUpTo(v, path, |v.kids|))
      decreases v, 0, 1
    {
      var nodes: seq<Node> := [];
      for i := 0 to |v.kids|
        invariant nodes == EncodedUpTo(v, path, i)
        invariant StringKeysUpTo(v, i)
        invariant tensors == WriteAll(old(tensors), LeavesUpTo(v, path, i))
      {
        var node := EncodeKid(v, path, i, old(tensors));
        if node.Err? {
          return Err(node.error);
        }
        nodes := nodes + [node.value];
      }
      return Ok(nodes);
    }

    method EncodeKid(v: Value, path: string, i: nat, ghost base: map<string, Tensor>)
      returns (r: Result<Node, WireError>)
      requires WellFormed(v) && Container(v) && i < |v.kids| && StringKeysUpTo(v, i)
      requires tensors == WriteAll(base, LeavesUpTo(v, path, i))
      modifies this
      ensures r.Ok? ==> StringKeysUpTo(v, i + 1)
      ensures r.Err? ==> !StringKeysUpTo(v, |v.kids|)
      ensures r.Ok? ==> EncodedUpTo(v, path, i + 1) == EncodedUpTo(v, path, i) + [r.value]
      ensures r.Ok? ==> tensors == WriteAll(base, LeavesUpTo(v, path, i + 1))
      decreases v, 0, 0
    {
      ghost var all := StringKeysUpTo(v, |v.kids|);
      if all {
        StringKeysPrefix(v, i + 1, |v.kids|);
      }
      if v.Dict? && !v.keys[i].Str? {
        return Err(KeyNotString);
      }
      var kidPath := Join(path, Label(v, i));
      r := Encode(v.kids[i], kidPath);
      WriteAppend(base, LeavesUpTo(v, path, i), Leaves(v.kids[i], kidPath));
    }
  }

  // ---------------------------------------------------------------- decoding

  function Decode(node: Node, tensors: map<string, Tensor>): Option<Value>
    decreases node, 1
  {
    match node
    case T(key, scalar) =>
      if key !in tensors then None
      else if !scalar then Some(TensorLeaf(tensors[key]))
      else if |tensors[key].data| == 1 then Some(TensorLeaf(Tensor([], tensors[key].data)))
      else None
    case J(value) => Some(value)
    case D(keys, kids) =>
      var values := DecodeUpTo(kids, tensors, |kids|);
      if values.Some? then Some(Dict(StrKeys(keys), values.value)) else None
    case L(kids) =>
      var values := DecodeUpTo(kids, tensors, |kids|);
      if values.Some? then Some(List(values.value)) else None
    case U(kids) =>
      var values := DecodeUpTo(kids, tensors, |kids|);
      if values.Some? then Some(Tuple(values.value)) else None
  }

  function DecodeUpTo(kids: seq<Node>, tensors: map<string, Tensor>, n: nat): (values: Option<seq<Value>>)
    requires n <= |kids|
    ensures values.Some? ==> |values.value| == n
    decreases kids, 0, n
  {
    if n == 0 then Some([])
    else
      var prior := DecodeUpTo(kids, tensors, n - 1);
      var last := Decode(kids[n - 1], tensors);
      if prior.Some? && last.Some? then Some(prior.value + [last.value]) else None
  }

  function StrKeys(keys: seq<string>): seq<Key> {
    seq(|keys|, i requires 0 <= i < |keys| => Str(keys[i]))
  }

  /** The tree after its trip through JSON text: only embedded values change. */
  ghost function Reparsed(node: Node, json: Value -> Value): Node
    decreases node, 1
  {
    match node
    case T(_, _) => node
    case J(value) => J(json(value))
    case D(keys, kids) => D(keys, ReparsedKids(kids, json))
    case L(kids) => L(ReparsedKids(kids, json))
    case U(kids) => U(ReparsedKids(kids, json))
  }

  ghost function ReparsedKids(kids: seq<Node>, json: Value -> Value): (nodes: seq<Node>)
    ensures |nodes| == |kids|
    decreases kids, 0
  {
    seq(|kids|, i requires 0 <= i < |kids| => Reparsed(kids[i], json))
  }

  /** The value a round trip gives back: tensors, tuples and tensor-bearing containers as they
      were, JSON normalisation in each maximal tensor-free dict, list or scalar. */
  ghost function Normalised(v: Value, json: Value -> Value): Value
    decreases v, 1
  {
    if v.TensorLeaf? then v
    else if !Walked(v) then json(v)
    else if v.Dict? then Dict(v.keys, NormalisedKids(v, json))
    else if v.Tuple? then Tuple(NormalisedKids(v, json))
    else List(NormalisedKids(v, json))
  }

  ghost function NormalisedKids(v: Value, json: Value -> Value): (kids: seq<Value>)
    requires Container(v)
    ensures |kids| == |v.kids|
    decreases v, 0
  {
    seq(|v.kids|, i requires 0 <= i < |v.kids| => Normalised(v.kids[i], json))
  }

  /** The tensor map gives this leaf back. */
  ghost predicate Yields(tensors: map<string, Tensor>, leaf: (string, Tensor)) {
    && leaf.0 in tensors
    && if leaf.1.shape == [] then tensors[leaf.0].data == leaf.1.data else tensors[leaf.0] == leaf.1
  }

  ghost predicate AllYield(tensors: map<string, Tensor>, leaves: seq<(string, Tensor)>) {
    forall i :: 0 <= i < |leaves| ==> Yields(tensors, leaves[i])
  }

  lemma AllYieldAppend(tensors: map<string, Tensor>, a: seq<(string, Tensor)>, b: seq<(string, Tensor)>)
    ensures AllYield(tensors, a + b) <==> AllYield(tensors, a) && AllYield(tensors, b)
  {
    if AllYield(tensors, a + b) {
      assert forall i :: 0 <= i < |a| ==> (a + b)[i] == a[i];
      assert forall i :: 0 <= i < |b| ==> (a + b)[|a| + i] == b[i];
    }
  }

  /** A container with its children replaced, its keys written as strings. */
  ghost function Rebuilt(v: Value, kids: seq<Value>): Value
    requires Container(v)
  {
    if v.Dict? then Dict(StrKeys(Labels(v)), kids) else if v.Tuple? then Tuple(kids) else List(kids)
  }

  lemma DecodeContainer(v: Value, path: string, tensors: map<string, Tensor>, json: Value -> Value)
    requires WellFormed(v) && Walked(v)
    ensures
      var kids := DecodeUpTo(ReparsedKids(EncodedKids(v, path), json), tensors, |v.kids|);
      Decode(Reparsed(Encoded(v, path), json), tensors) == if kids.Some? then Some(Rebuilt(v, kids.value)) else None
  {
  }

  lemma NormalisedContainer(v: Value, json: Value -> Value)
    requires WellFormed(v) && Walked(v) && StringKeys(v)
    ensures Normalised(v, json) == Rebuilt(v, NormalisedKids(v, json))
  {
    if v.Dict? {
      KeysAreStrings(v, |v.kids|);
      assert StrKeys(Labels(v)) == v.keys;
    }
  }

  /** Decoding gives the value back iff the tensor map gives back every leaf of the value. */
  lemma {:induction false} DecodeIff(v: Value, path: string, tensors: map<string, Tensor>, json: Value -> Value)
    requires WellFormed(v) && StringKeys(v)
    ensures Decode(Reparsed(Encoded(v, path), json), tensors) == Some(Normalised(v, json))
            <==> AllYield(tensors, Leaves(v, path))
    decreases v, 1
  {
    if v.TensorLeaf? {
      assert Leaves(v, path)[0] == (KeyOf(path), v.t);
    } else if Walked(v) {
      DecodeKidsIff(v, path, tensors, json);
      DecodeContainer(v, path, tensors, json);
      NormalisedContainer(v, json);
    }
  }

  ghost function KidLeaves(v: Value, path: string): (leaves: seq<seq<(string, Tensor)>>)
    requires WellFormed(v) && Container(v)
    ensures |leaves| == |v.kids|
  {
    seq(|v.kids|, i requires 0 <= i < |v.kids| => Leaves(v.kids[i], Join(path, Label(v, i))))
  }

  /** The leaves of the first `n` children, one child after the other. */
  lemma {:induction false} LeavesAreFlat(v: Value, path: string, n: nat)
    requires WellFormed(v) && Container(v) && n <= |v.kids|
    ensures LeavesUpTo(v, path, n) == Flatten(KidLeaves(v, path)[..n])
    decreases n
  {
    if n > 0 {
      LeavesAreFlat(v, path, n - 1);
      assert KidLeaves(v, path)[..n][..n - 1] == KidLeaves(v, path)[..n - 1];
    }
  }

  ghost predicate EachYields(tensors: map<string, Tensor>, parts: seq<seq<(string, Tensor)>>, n: nat)
    requires n <= |parts|
  {
    forall i :: 0 <= i < n ==> AllYield(tensors, parts[i])
  }

  lemma {:induction false} FlatYield(tensors: map<string, Tensor>, parts: seq<seq<(string, Tensor)>>, n: nat)
    requires n <= |parts|
    ensures AllYield(tensors, Flatten(parts[..n])) <==> EachYields(tensors, parts, n)
    decreases n
  {
    if n > 0 {
      FlatYield(tensors, parts, n - 1);
      assert parts[..n][..n - 1] == parts[..n - 1];
      AllYieldAppend(tensors, Flatten(parts[..n - 1]), parts[n - 1]);
    }
  }

  lemma KidLeavesYield(v: Value, path: string, tensors: map<string, Tensor>)
    requires WellFormed(v) && Container(v)
    ensures AllYield(tensors, LeavesUpTo(v, path, |v.kids|)) <==> EachYields(tensors, KidLeaves(v, path), |v.kids|)
  {
    var kids := KidLeaves(v, path);
    LeavesAreFlat(v, path, |v.kids|);
    FlatYield(tensors, kids, |v.kids|);
  }

  /** A node decodes to a value exactly when the leaves are there. */
  ghost predicate Decodes(node: Node, value: Value, tensors: map<string, Tensor>, leaves: seq<(string, Tensor)>) {
    Decode(node, tensors) == Some(value) <==> AllYield(tensors, leaves)
  }

  lemma {:induction false} DecodeSeqIff(
      nodes: seq<Node>, values: seq<Value>, tensors: map<string, Tensor>, leaves: seq<seq<(string, Tensor)>>, n: nat)
    requires n <= |nodes| == |values| == |leaves|
    requires forall i :: 0 <= i < n ==> Decodes(nodes[i], values[i], tensors, leaves[i])
    ensures DecodeUpTo(nodes, tensors, n) == Some(values[..n])
            <==> EachYields(tensors, leaves, n)
    decreases n
  {
    if n > 0 {
      DecodeSeqIff(nodes, values, tensors, leaves, n - 1);
      DecodeStep(nodes, tensors, values, n);
      assert Decodes(nodes[n - 1], values[n - 1], tensors, leaves[n - 1]);
    }
  }

  lemma {:induction false} DecodeKidsIff(v: Value, path: string, tensors: map<string, Tensor>, json: Value -> Value)
    requires WellFormed(v) && Container(v) && StringKeysUpTo(v, |v.kids|)
    ensures DecodeUpTo(ReparsedKids(EncodedKids(v, path), json), tensors, |v.kids|) == Some(NormalisedKids(v, json))
            <==> AllYield(tensors, LeavesUpTo(v, path, |v.kids|))
    decreases v, 0
  {
    var n := |v.kids|;
    var nodes, values, leaves := ReparsedKids(EncodedKids(v, path), json), NormalisedKids(v, json), KidLeaves(v, path);
    forall i | 0 <= i < n ensures Decodes(nodes[i], values[i], tensors, leaves[i]) {
      StringKeysPrefix(v, i + 1, n);
      EncodedAt(v, path, n, i);
      DecodeIff(v.kids[i], Join(path, Label(v, i)), tensors, json);
    }
    DecodeSeqIff(nodes, values, tensors, leaves, n);
    KidLeavesYield(v, path, tensors);
    assert values[..n] == values;
  }

  lemma DecodeStep(nodes: seq<Node>, tensors: map<string, Tensor>, values: seq<Value>, n: nat)
    requires 0 < n <= |nodes| == |values|
    ensures DecodeUpTo(nodes, tensors, n) == Some(values[..n]) <==>
            DecodeUpTo(nodes, tensors, n - 1) == Some(values[..n - 1])
                && Decode(nodes[n - 1], tensors) == Some(values[n - 1])
  {
    PrefixPlusLast(DecodeUpTo(nodes, tensors, n - 1), Decode(nodes[n - 1], tensors), values, n);
  }

  lemma PrefixPlusLast(prior: Option<seq<Value>>, last: Option<Value>, values: seq<Value>, n: nat)
    requires 0 < n <= |values| && (prior.Some? ==> |prior.value| == n - 1)
    ensures (if prior.Some? && last.Some? then Some(prior.value + [last.value]) else None) == Some(values[..n])
            <==> prior == Some(values[..n - 1]) && last == Some(values[n - 1])
  {
    assert values[..n] == values[..n - 1] + [values[n - 1]];
    if prior.Some? && last.Some? && prior.value + [last.value] == values[..n] {
      var joined := prior.value + [last.value];
      assert joined[..n - 1] == prior.value && joined[n - 1] == last.value;
      assert values[..n][..n - 1] == values[..n - 1];
    }
  }

  lemma {:induction false} KeysAreStrings(v: Value, n: nat)
    requires v.Dict? && |v.keys| == |v.kids| && n <= |v.kids| && StringKeysUpTo(v, n)
    ensures forall i :: 0 <= i < n ==> v.keys[i].Str?
    decreases n
  {
    if n > 0 {
      KeysAreStrings(v, n - 1);
    }
  }

  // ---------------------------------------------------------------- frames

  datatype Frame = Frame(version: string, tree: Node, tensors: map<string, Tensor>)

  /** The frame of a value. An empty tensor map gets a placeholder entry. */
  ghost function Dumped(v: Value): Frame
    requires WellFormed(v)
  {
    var written := WriteAll(map[], Leaves(v, ""));
    Frame(WIRE_VERSION, Encoded(v, ""), if written == map[] then map[PLACEHOLDER_KEY := Tensor([1], [0])] else written)
  }

  method Dumps(v: Value) returns (r: Result<Frame, WireError>)
    requires WellFormed(v)
    ensures r.Ok? <==> StringKeys(v)
    ensures r.Ok? ==> r.value == Dumped(v)
  {
    var encoder := new Encoder();
    var tree := encoder.Encode(v, "");
    if tree.Err? {
      return Err(tree.error);
    }
    if encoder.tensors == map[] {
      encoder.tensors := map[PLACEHOLDER_KEY := Tensor([1], [0])];
    }
    return Ok(Frame(WIRE_VERSION, tree.value, encoder.tensors));
  }

  function Loads(frame: Frame): Result<Value, WireError> {
    if frame.version != WIRE_VERSION then Err(BadVersion)
    else
      var value := Decode(frame.tree, frame.tensors - {PLACEHOLDER_KEY});
      if value.Some? then Ok(value.value) else Err(MissingTensor)
  }

  ghost function Transmitted(frame: Frame, json: Value -> Value): Frame {
    frame.(tree := Reparsed(frame.tree, json))
  }

  ghost predicate RoundTrips(v: Value, json: Value -> Value)
    requires WellFormed(v)
  {
    Loads(Transmitted(Dumped(v), json)) == Ok(Normalised(v, json))
  }

  /** Reading back what was written, less the placeholder, must give back every leaf. */
  lemma RoundTripIffWritten(v: Value, json: Value -> Value)
    requires WellFormed(v) && StringKeys(v)
    ensures RoundTrips(v, json) <==> AllYield(Dumped(v).tensors - {PLACEHOLDER_KEY}, Leaves(v, ""))
  {
    DecodeIff(v, "", Dumped(v).tensors - {PLACEHOLDER_KEY}, json);
  }

  /** No later tensor is written under the key of leaf `j`. */
  ghost predicate IsLastWrite(leaves: seq<(string, Tensor)>, j: nat)
    requires j < |leaves|
  {
    forall k :: j < k < |leaves| ==> leaves[k].0 != leaves[j].0
  }

  /** Storing `written` under the key of `wanted` still gives `wanted` back: a 0-d tensor needs the
      same number only, any other tensor the same shape and data. */
  ghost predicate StandsFor(written: Tensor, wanted: Tensor) {
    if wanted.shape == [] then written.data == wanted.data else Stored(written) == wanted
  }

  /** The tensors that share a path all stand for the last one written there. */
  ghost predicate ClashesAreHarmless(leaves: seq<(string, Tensor)>) {
    forall i, j :: 0 <= i < |leaves| && 0 <= j < |leaves| && leaves[i].0 == leaves[j].0 && IsLastWrite(leaves, j) ==>
      StandsFor(leaves[j].1, leaves[i].1)
  }

  ghost predicate AvoidsPlaceholder(leaves: seq<(string, Tensor)>) {
    forall i :: 0 <= i < |leaves| ==> leaves[i].0 != PLACEHOLDER_KEY
  }

  lemma {:induction false} WrittenIsLast(leaves: seq<(string, Tensor)>, j: nat)
    requires j < |leaves| && IsLastWrite(leaves, j)
    ensures leaves[j].0 in WriteAll(map[], leaves) && WriteAll(map[], leaves)[leaves[j].0] == Stored(leaves[j].1)
    decreases |leaves|
  {
    var k := |leaves| - 1;
    if j < k {
      assert IsLastWrite(leaves[..k], j) by {
        assert forall q :: j < q < k ==> leaves[..k][q] == leaves[q];
      }
      WrittenIsLast(leaves[..k], j);
      assert leaves[k].0 != leaves[j].0;
    }
  }

  /** Every key that is written has a last write. */
  lemma {:induction false} FindLastWrite(leaves: seq<(string, Tensor)>, i: nat) returns (j: nat)
    requires i < |leaves|
    ensures i <= j < |leaves| && leaves[j].0 == leaves[i].0 && IsLastWrite(leaves, j)
    decreases |leaves| - i
  {
    if k :| i < k < |leaves| && leaves[k].0 == leaves[i].0 {
      j := FindLastWrite(leaves, k);
    } else {
      j := i;
    }
  }

  /** For any string-keyed value the round trip works exactly when no tensor sits under the placeholder
      key and every tensor can be read back from the last tensor written under its path. */
  lemma RoundTripIff(v: Value, json: Value -> Value)
    requires WellFormed(v) && StringKeys(v)
    ensures RoundTrips(v, json) <==> AvoidsPlaceholder(Leaves(v, "")) && ClashesAreHarmless(Leaves(v, ""))
  {
    RoundTripIffWritten(v, json);
    WrittenYieldsIff(Leaves(v, ""));
  }

  /** A leaf is read back iff it avoids the placeholder and the last write under its key stands for it. */
  lemma YieldsIff(leaves: seq<(string, Tensor)>, i: nat, j: nat)
    requires i < |leaves| && j < |leaves| && leaves[i].0 == leaves[j].0 && IsLastWrite(leaves, j)
    ensures Yields(WriteAll(map[], leaves) - {PLACEHOLDER_KEY}, leaves[i])
            <==> leaves[i].0 != PLACEHOLDER_KEY && StandsFor(leaves[j].1, leaves[i].1)
  {
    WrittenIsLast(leaves, j);
  }

  lemma WrittenYieldsIff(leaves: seq<(string, Tensor)>)
    ensures AllYield(WriteAll(map[], leaves) - {PLACEHOLDER_KEY}, leaves)
            <==> AvoidsPlaceholder(leaves) && ClashesAreHarmless(leaves)
  {
    var tensors := WriteAll(map[], leaves) - {PLACEHOLDER_KEY};
    if AllYield(tensors, leaves) {
      forall i | 0 <= i < |leaves| ensures leaves[i].0 != PLACEHOLDER_KEY {
        assert Yields(tensors, leaves[i]);
      }
      forall i, j | 0 <= i < |leaves| && 0 <= j < |leaves| && leaves[i].0 == leaves[j].0 && IsLastWrite(leaves, j)
        ensures StandsFor(leaves[j].1, leaves[i].1)
      {
        assert Yields(tensors, leaves[i]);
        YieldsIff(leaves, i, j);
      }
    }
    if AvoidsPlaceholder(leaves) && ClashesAreHarmless(leaves) {
      forall i | 0 <= i < |leaves| ensures Yields(tensors, leaves[i]) {
        var j := FindLastWrite(leaves, i);
        YieldsIff(leaves, i, j);
      }
    }
  }

  /** A one-entry dict around a tensor. */
  lemma SingleEntry(name: string, t: Tensor, path: string)
    requires t.shape == [] ==> |t.data| == 1
    ensures
      var v := Dict([Str(name)], [TensorLeaf(t)]);
      WellFormed(v) && HasTensor(v) && StringKeys(v) && Leaves(v, path) == [(KeyOf(Join(path, name)), t)]
  {
    var v := Dict([Str(name)], [TensorLeaf(t)]);
    assert HasTensor(v.kids[0]);
    assert StringKeysUpTo(v, 0) && StringKeysUpTo(v, 1);
    assert LeavesUpTo(v, path, 0) == [];
    assert Leaves(v.kids[0], Join(path, name)) == [(KeyOf(Join(path, name)), t)];
  }

  lemma TwoEntries(a: string, b: string, x: Value, y: Value)
    requires a != b && WellFormed(x) && WellFormed(y) && HasTensor(x) && StringKeys(x) && StringKeys(y)
    ensures
      var v := Dict([Str(a), Str(b)], [x, y]);
      WellFormed(v) && StringKeys(v) && Leaves(v, "") == Leaves(x, a) + Leaves(y, b)
  {
    var v := Dict([Str(a), Str(b)], [x, y]);
    assert HasTensor(v.kids[0]);
    assert StringKeysUpTo(v, 0) && StringKeysUpTo(v, 1) && StringKeysUpTo(v, 2);
    assert LeavesUpTo(v, "", 0) == [] && LeavesUpTo(v, "", 1) == Leaves(x, a);
    assert LeavesUpTo(v, "", 2) == Leaves(x, a) + Leaves(y, b);
  }

  /** {"a.b": x, "a": {"b": y}}: a dotted key and a nested dict that meet on one path. */
  function Clashing(x: Tensor, y: Tensor): Value {
    Dict([Str("a.b"), Str("a")], [TensorLeaf(x), Dict([Str("b")], [TensorLeaf(y)])])
  }

  /** That value comes back exactly when `y`, written last, stands for `x`. */
  lemma DottedKeysClash(x: Tensor, y: Tensor, json: Value -> Value)
    requires (x.shape == [] ==> |x.data| == 1) && (y.shape == [] ==> |y.data| == 1)
    ensures WellFormed(Clashing(x, y)) && StringKeys(Clashing(x, y))
    ensures RoundTrips(Clashing(x, y), json) <==> StandsFor(y, x)
  {
    var inner := Dict([Str("b")], [TensorLeaf(y)]);
    SingleEntry("b", y, "a");
    TwoEntries("a.b", "a", TensorLeaf(x), inner);
    assert Join("a", "b") == "a.b";
    RoundTripIff(Clashing(x, y), json);
    var leaves := Leaves(Clashing(x, y), "");
    assert leaves == [("a.b", x), ("a.b", y)];
    assert !IsLastWrite(leaves, 0) by {
      assert leaves[1].0 == leaves[0].0;
    }
    assert IsLastWrite(leaves, 1) && StandsFor(y, y);
  }

  /** Other data and other shapes are lost; a 0-d tensor survives under a one-element matrix. */
  lemma ClashExamples()
    ensures !StandsFor(Tensor([1], [2]), Tensor([1], [1]))
    ensures !StandsFor(Tensor([1, 2], [7, 8]), Tensor([2, 1], [7, 8]))
    ensures StandsFor(Tensor([1, 1], [5]), Tensor([], [5]))
  {
    assert [1, 2][0] != [2, 1][0];
  }

  // ---------------------------------------------------------------- distinct paths

  ghost predicate KeysDistinct(leaves: seq<(string, Tensor)>) {
    forall i, j :: 0 <= i < j < |leaves| ==> leaves[i].0 != leaves[j].0
  }

  /** When no two tensors share a path, a round trip works iff no tensor sits on the placeholder's key. */
  lemma DistinctPathsRoundTrip(v: Value, json: Value -> Value)
    requires WellFormed(v) && StringKeys(v) && KeysDistinct(Leaves(v, ""))
    ensures RoundTrips(v, json) <==> AvoidsPlaceholder(Leaves(v, ""))
  {
    var leaves := Leaves(v, "");
    RoundTripIff(v, json);
    forall i, j | 0 <= i < |leaves| && 0 <= j < |leaves| && leaves[i].0 == leaves[j].0
      ensures StandsFor(leaves[j].1, leaves[i].1)
    {
      assert i == j;
    }
  }

  predicate GoodLabel(s: string) {
    s != "" && '.' !in s
  }

  /** Every key of a tensor-bearing dict is a non-empty string without dots. */
  ghost predicate GoodKeys(v: Value)
    decreases v, 1
  {
    Walked(v) ==> GoodKeysUpTo(v, |v.kids|)
  }

  ghost predicate GoodKeysUpTo(v: Value, n: nat)
    requires Container(v) && n <= |v.kids|
    decreases v, 0, n
  {
    n > 0 ==>
      && GoodKeysUpTo(v, n - 1)
      && (v.Dict? && n <= |v.keys| ==> v.keys[n - 1].Str? && GoodLabel(v.keys[n - 1].s))
      && GoodKeys(v.kids[n - 1])
  }

  lemma {:induction false} GoodKeysAreStrings(v: Value)
    requires GoodKeys(v)
    ensures StringKeys(v)
    decreases v, 1
  {
    if Walked(v) {
      GoodKeysAreStringsUpTo(v, |v.kids|);
    }
  }

  lemma {:induction false} GoodKeysAreStringsUpTo(v: Value, n: nat)
    requires Container(v) && n <= |v.kids| && GoodKeysUpTo(v, n)
    ensures StringKeysUpTo(v, n)
    decreases v, 0, n
  {
    if n > 0 {
      GoodKeysAreStringsUpTo(v, n - 1);
      GoodKeysAreStrings(v.kids[n - 1]);
    }
  }

  // Labels of one container are good and differ.

  function DigitValue(c: char): int {
    c as int - '0' as int
  }

  function NumberOf(s: string): int {
    if s == "" then 0 else 10 * NumberOf(s[..|s| - 1]) + DigitValue(s[|s| - 1])
  }

  lemma {:induction false} DigitsReadBack(n: nat)
    ensures NumberOf(Digits(n)) == n && Digits(n) != ""
    ensures forall i :: 0 <= i < |Digits(n)| ==> '0' <= Digits(n)[i] <= '9'
    decreases n
  {
    if n >= 10 {
      DigitsReadBack(n / 10);
      assert Digits(n)[..|Digits(n)| - 1] == Digits(n / 10);
    } else {
      assert Digits(n)[..0] == "";
    }
  }

  lemma {:induction false} LabelIsGood(v: Value, n: nat, i: nat)
    requires WellFormed(v) && Container(v) && i < n <= |v.kids| && GoodKeysUpTo(v, n)
    ensures GoodLabel(Label(v, i)) && (v.Dict? ==> v.keys[i].Str?) && GoodKeys(v.kids[i])
    decreases n
  {
    if i < n - 1 {
      LabelIsGood(v, n - 1, i);
    } else {
      DigitsReadBack(i);
    }
  }

  lemma LabelsDiffer(v: Value, n: nat, i: nat, j: nat)
    requires WellFormed(v) && Container(v) && i < j < n <= |v.kids| && GoodKeysUpTo(v, n)
    ensures Label(v, i) != Label(v, j)
  {
    LabelIsGood(v, n, i);
    LabelIsGood(v, n, j);
    DigitsReadBack(i);
    DigitsReadBack(j);
  }

  /** `key` is `path` or lies below it. */
  ghost predicate Under(key: string, path: string) {
    path <= key && (|key| > |path| ==> key[|path|] == '.')
  }

  lemma UnderChild(key: string, path: string, name: string)
    requires path != "" && Under(key, Join(path, name))
    ensures Under(key, path) && key != path
  {
    var child := path + "." + name;
    assert child[|path|] == '.' && child[..|path|] == path;
    assert key[..|child|] == child;
    assert key[|path|] == child[|path|];
    assert key[..|path|] == path;
  }

  /** A key lies under at most one child of a container. */
  lemma OneChild(key: string, path: string, a: string, b: string)
    requires GoodLabel(a) && GoodLabel(b) && Under(key, Join(path, a)) && Under(key, Join(path, b))
    ensures a == b
  {
    var stem := if path == "" then "" else path + ".";
    assert Join(path, a) == stem + a && Join(path, b) == stem + b;
    var rest := key[|stem|..];
    UnderRest(key, stem, a);
    UnderRest(key, stem, b);
    assert Under(rest, a) && Under(rest, b);
  }

  lemma UnderRest(key: string, stem: string, name: string)
    requires Under(key, stem + name)
    ensures |stem| <= |key| && Under(key[|stem|..], name)
  {
    var whole, rest := stem + name, key[|stem|..];
    assert key[..|whole|] == whole;
    forall i | 0 <= i < |name| ensures rest[i] == name[i] {
      assert rest[i] == key[|stem| + i] == whole[|stem| + i];
    }
  }

  lemma JoinIsNonEmpty(path: string, name: string)
    requires GoodLabel(name)
    ensures Join(path, name) != ""
  {
  }

  // Where a leaf of a container comes from.

  lemma LocateLeaf(v: Value, path: string, n: nat, leaf: (string, Tensor)) returns (i: nat)
    requires WellFormed(v) && Container(v) && n <= |v.kids| && leaf in LeavesUpTo(v, path, n)
    ensures i < n && leaf in Leaves(v.kids[i], Join(path, Label(v, i)))
  {
    LeavesAreFlat(v, path, n);
    FlattenMember(KidLeaves(v, path)[..n], leaf);
    i :| 0 <= i < n && leaf in KidLeaves(v, path)[..n][i];
  }

  lemma KidLeafListed(v: Value, path: string, n: nat, i: nat, leaf: (string, Tensor))
    requires WellFormed(v) && Container(v) && i < n <= |v.kids| && leaf in Leaves(v.kids[i], Join(path, Label(v, i)))
    ensures leaf in LeavesUpTo(v, path, n)
  {
    LeavesAreFlat(v, path, n);
    FlattenMember(KidLeaves(v, path)[..n], leaf);
    assert leaf in KidLeaves(v, path)[..n][i];
  }

  /** Every key written below a path lies under it, and strictly below it for a container. */
  lemma {:induction false} LeavesLieUnder(v: Value, path: string, leaf: (string, Tensor))
    requires WellFormed(v) && GoodKeys(v) && path != "" && leaf in Leaves(v, path)
    ensures Under(leaf.0, path) && (v.TensorLeaf? <==> leaf.0 == path)
    decreases v
  {
    if Walked(v) {
      var i := LocateLeaf(v, path, |v.kids|, leaf);
      LabelIsGood(v, |v.kids|, i);
      JoinIsNonEmpty(path, Label(v, i));
      LeavesLieUnder(v.kids[i], Join(path, Label(v, i)), leaf);
      UnderChild(leaf.0, path, Label(v, i));
    }
  }

  /** Distinct tensors get distinct path keys. */
  lemma {:induction false} PathsAreDistinct(v: Value, path: string)
    requires WellFormed(v) && GoodKeys(v)
    ensures KeysDistinct(Leaves(v, path))
    decreases v, 1
  {
    if Walked(v) {
      PathsAreDistinctUpTo(v, path, |v.kids|);
    }
  }

  lemma {:induction false} PathsAreDistinctUpTo(v: Value, path: string, n: nat)
    requires WellFormed(v) && Container(v) && n <= |v.kids| && GoodKeysUpTo(v, n)
    ensures KeysDistinct(LeavesUpTo(v, path, n))
    decreases v, 0, n
  {
    if n > 0 {
      var kidPath := Join(path, Label(v, n - 1));
      PathsAreDistinctUpTo(v, path, n - 1);
      LabelIsGood(v, n, n - 1);
      PathsAreDistinct(v.kids[n - 1], kidPath);
      var prior, own := LeavesUpTo(v, path, n - 1), Leaves(v.kids[n - 1], kidPath);
      forall x, y | x in prior && y in own ensures x.0 != y.0 {
        SiblingsDiffer(v, path, n, x, y);
      }
      DistinctAppend(prior, own);
    }
  }

  lemma DistinctAppend(a: seq<(string, Tensor)>, b: seq<(string, Tensor)>)
    requires KeysDistinct(a) && KeysDistinct(b) && forall x, y :: x in a && y in b ==> x.0 != y.0
    ensures KeysDistinct(a + b)
  {
    var all := a + b;
    forall i, j | 0 <= i < j < |all| ensures all[i].0 != all[j].0 {
      if i < |a| && j >= |a| {
        assert all[i] in a && all[j] in b;
      }
    }
  }

  lemma SiblingsDiffer(v: Value, path: string, n: nat, x: (string, Tensor), y: (string, Tensor))
    requires WellFormed(v) && Container(v) && 0 < n <= |v.kids| && GoodKeysUpTo(v, n)
    requires x in LeavesUpTo(v, path, n - 1) && y in Leaves(v.kids[n - 1], Join(path, Label(v, n - 1)))
    ensures x.0 != y.0
  {
    var i := LocateLeaf(v, path, n - 1, x);
    LabelIsGood(v, n, i);
    LabelIsGood(v, n, n - 1);
    LabelsDiffer(v, n, i, n - 1);
    JoinIsNonEmpty(path, Label(v, i));
    JoinIsNonEmpty(path, Label(v, n - 1));
    LeavesLieUnder(v.kids[i], Join(path, Label(v, i)), x);
    LeavesLieUnder(v.kids[n - 1], Join(path, Label(v, n - 1)), y);
    if x.0 == y.0 {
      OneChild(x.0, path, Label(v, i), Label(v, n - 1));
    }
  }

  // ---------------------------------------------------------------- the promise of the codec

  /** A top-level dict with a tensor directly under the placeholder's key. */
  ghost predicate TensorOnPlaceholder(v: Value) {
    v.Dict? && |v.keys| == |v.kids|
    && exists i :: 0 <= i < |v.kids| && v.keys[i] == Str(PLACEHOLDER_KEY) && v.kids[i].TensorLeaf?
  }

  /** The placeholder key has no dot, so it lies under itself only. */
  lemma OnlyItself(name: string)
    requires name != "" && Under(PLACEHOLDER_KEY, name)
    ensures name == PLACEHOLDER_KEY
  {
    assert forall i :: 0 <= i < |PLACEHOLDER_KEY| ==> PLACEHOLDER_KEY[i] != '.';
    assert name == PLACEHOLDER_KEY[..|name|];
  }

  lemma DigitsAreNotPlaceholder(i: nat)
    ensures Digits(i) != PLACEHOLDER_KEY
  {
    DigitsReadBack(i);
    assert PLACEHOLDER_KEY[0] == '_';
  }

  lemma PlaceholderLeafIsTop(v: Value, leaf: (string, Tensor))
    requires WellFormed(v) && GoodKeys(v) && leaf in Leaves(v, "") && leaf.0 == PLACEHOLDER_KEY
    ensures TensorOnPlaceholder(v)
  {
    if Walked(v) {
      var i := LocateLeaf(v, "", |v.kids|, leaf);
      LabelIsGood(v, |v.kids|, i);
      LeavesLieUnder(v.kids[i], Label(v, i), leaf);
      OnlyItself(Label(v, i));
      DigitsAreNotPlaceholder(i);
    }
  }

  lemma TopPlaceholderIsLeaf(v: Value) returns (leaf: (string, Tensor))
    requires WellFormed(v) && TensorOnPlaceholder(v)
    ensures leaf in Leaves(v, "") && leaf.0 == PLACEHOLDER_KEY
  {
    var i :| 0 <= i < |v.kids| && v.keys[i] == Str(PLACEHOLDER_KEY) && v.kids[i].TensorLeaf?;
    assert HasTensor(v.kids[i]);
    leaf := (PLACEHOLDER_KEY, v.kids[i].t);
    KidLeafListed(v, "", |v.kids|, i, leaf);
  }

  /** With non-empty, dot-free keys every value comes back, except a tensor on the placeholder's own key. */
  lemma RoundTrip(v: Value, json: Value -> Value)
    requires WellFormed(v) && GoodKeys(v)
    ensures StringKeys(v) && (RoundTrips(v, json) <==> !TensorOnPlaceholder(v))
  {
    GoodKeysAreStrings(v);
    PathsAreDistinct(v, "");
    DistinctPathsRoundTrip(v, json);
    var leaves := Leaves(v, "");
    if TensorOnPlaceholder(v) {
      var leaf := TopPlaceholderIsLeaf(v);
      var i :| 0 <= i < |leaves| && leaves[i] == leaf;
    } else {
      forall i | 0 <= i < |leaves| ensures leaves[i].0 != PLACEHOLDER_KEY {
        if leaves[i].0 == PLACEHOLDER_KEY {
          PlaceholderLeafIsTop(v, leaves[i]);
        }
      }
    }
  }

  /** JSON text keeps every part of the value that goes through it: tensor-free dicts, lists and scalars that
      are not inside another such part. */
  ghost predicate KeptByJson(v: Value, json: Value -> Value) {
    if v.TensorLeaf? then true
    else if v.Tuple? || HasTensor(v) then
      Container(v) && forall i :: 0 <= i < |v.kids| ==> KeptByJson(v.kids[i], json)
    else json(v) == v
  }

  lemma {:induction false} NormalisedKeeps(v: Value, json: Value -> Value)
    requires KeptByJson(v, json)
    ensures Normalised(v, json) == v
    decreases v
  {
    if Walked(v) {
      forall i | 0 <= i < |v.kids|
        ensures NormalisedKids(v, json)[i] == v.kids[i]
      {
        NormalisedKeeps(v.kids[i], json);
      }
      assert NormalisedKids(v, json) == v.kids;
    }
  }

  /** Then the very value comes back: dicts with their keys in order, lists as lists, tuples as tuples. */
  lemma SameValueBack(v: Value, json: Value -> Value)
    requires WellFormed(v) && GoodKeys(v) && KeptByJson(v, json)
    ensures Loads(Transmitted(Dumped(v), json)) == Ok(v) <==> !TensorOnPlaceholder(v)
  {
    RoundTrip(v, json);
    NormalisedKeeps(v, json);
  }
}
