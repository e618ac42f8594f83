/** Splitting an oversized frame into self-describing byte-range frames and putting them back
    together (arctic_platform/wire.py, encode_byte_chunks, decode_byte_chunks). Serialising one
    chunk frame is an abstract lossless codec, the digest an uninterpreted function. */
module WireChunks {
  import opened Basics

  newtype Byte = b: int | 0 <= b < 256
  type Bytes = seq<Byte>

  const CHUNK_OVERHEAD: int := 8192

  datatype ChunkError =
    | MaxBytesTooSmall | FrameTooSmall | UnknownKind | NoChunks | NoDescriptor | WrongKind | WrongCount
    | KindsMixed | TotalDiffers | DigestDiffers | SizeDiffers | GroupDiffers | OperationDiffers
    | IndexOutOfRange | DuplicateIndex | BadPayload | MissingChunks | SizeMismatch | DigestMismatch

  /** The descriptor every chunk frame carries. */
  datatype Desc = Desc(
    kind: string, index: int, total: int, digest: string, size: int, group: Option<string>, operation: Option<string>)

  /** How chunk frames become bytes and what can be read back out of bytes. */
  datatype Codec = Codec(
    write: (Desc, Bytes) -> Bytes,
    describe: Bytes -> Option<Desc>,
    payload: Bytes -> Option<Bytes>,
    digest: Bytes -> string)

  ghost predicate Lossless(codec: Codec) {
    forall d, payload {:trigger codec.write(d, payload)} ::
      codec.describe(codec.write(d, payload)) == Some(d) && codec.payload(codec.write(d, payload)) == Some(payload)
  }

  predicate KnownKind(kind: string) {
    kind == "request" || kind == "result"
  }

  // ---------------------------------------------------------------- encoding

  /** What all chunks of one frame share. */
  datatype Header = Header(kind: string, group: Option<string>, operation: Option<string>)

  function ChunkDesc(codec: Codec, frame: Bytes, header: Header, index: int, total: int): Desc {
    Desc(header.kind, index, total, codec.digest(frame), |frame|, header.group, header.operation)
  }

  function ChunkFrames(codec: Codec, frame: Bytes, header: Header, pieces: seq<Bytes>): (chunks: seq<Bytes>)
    ensures |chunks| == |pieces|
    ensures forall i :: 0 <= i < |pieces| ==>
              chunks[i] == codec.write(ChunkDesc(codec, frame, header, i, |pieces|), pieces[i])
  {
    seq(|pieces|, i requires 0 <= i < |pieces| => codec.write(ChunkDesc(codec, frame, header, i, |pieces|), pieces[i]))
  }

  /** Chunk `i` when the frame is cut every `size` bytes. */
  ghost function ChunkAt(codec: Codec, frame: Bytes, header: Header, size: nat, i: nat): Bytes
    requires size > 0 && i < CutCount(|frame|, size)
  {
    RangeStartsInside(|frame|, size, i);
    var total := CutCount(|frame|, size);
    codec.write(
      Desc(header.kind, i, total, codec.digest(frame), |frame|, header.group, header.operation),
      frame[i * size..Least((i + 1) * size, |frame|)])
  }

  ghost predicate ChunkedAt(codec: Codec, frame: Bytes, header: Header, size: nat, chunks: seq<Bytes>)
    requires size > 0
  {
    && |chunks| == CutCount(|frame|, size)
    && forall i :: 0 <= i < |chunks| ==> chunks[i] == ChunkAt(codec, frame, header, size, i)
  }

  lemma FramesAreChunks(codec: Codec, frame: Bytes, header: Header, size: nat)
    requires size > 0
    ensures ChunkedAt(codec, frame, header, size, ChunkFrames(codec, frame, header, Cut(frame, size)))
  {
    CutAt(frame, size);
    var pieces := Cut(frame, size);
    var chunks := ChunkFrames(codec, frame, header, pieces);
    forall i | 0 <= i < |chunks|
      ensures chunks[i] == ChunkAt(codec, frame, header, size, i)
    {
      assert IsRange(frame, size, i, pieces[i]);
    }
  }

  ghost predicate IsChunking(codec: Codec, frame: Bytes, kind: string, chunks: seq<Bytes>) {
    exists header: Header, size: nat ::
      size > 0 && header.kind == kind && chunks == ChunkFrames(codec, frame, header, Cut(frame, size))
  }

  /** A request keeps its group id or gets a fresh one; a result has none. */
  function HeaderFor(kind: string, operation: Option<string>, groupId: Option<string>, freshId: string):
    (header: Header)
    ensures header.kind == kind && header.operation == operation
    ensures kind == "result" ==> header.group == None
    ensures kind == "request" && groupId.Some? && groupId.value != "" ==> header.group == groupId
    ensures kind == "request" && (groupId.None? || groupId.value == "") ==> header.group == Some(freshId)
  {
    var group := if kind != "request" then None
                 else if groupId.None? || groupId.value == "" then Some(freshId)
                 else groupId;
    Header(kind, group, operation)
  }

  predicate AllWithin(chunks: seq<Bytes>, maxBytes: int) {
    forall i :: 0 <= i < |chunks| ==> |chunks[i]| <= maxBytes
  }

  /** The first payload size of the halving sequence from `size` whose chunks all fit. */
  ghost function ChosenSize(codec: Codec, frame: Bytes, header: Header, maxBytes: int, size: nat): (chosen: Option<nat>)
    requires size > 0
    ensures chosen.Some? ==>
              0 < chosen.value <= size
                  && AllWithin(ChunkFrames(codec, frame, header, Cut(frame, chosen.value)), maxBytes)
    ensures chosen.None? ==> !AllWithin(ChunkFrames(codec, frame, header, Cut(frame, 1)), maxBytes)
    decreases size
  {
    if AllWithin(ChunkFrames(codec, frame, header, Cut(frame, size)), maxBytes) then Some(size)
    else if size == 1 then None
    else ChosenSize(codec, frame, header, maxBytes, size / 2)
  }

  /** `size` halved `k` times. */
  ghost function Halved(size: nat, k: nat): nat {
    if k == 0 then size else Halved(size, k - 1) / 2
  }

  lemma {:induction false} HalvedLater(size: nat, k: nat)
    ensures Halved(size, k + 1) == Halved(size / 2, k)
    decreases k
  {
    if k > 0 {
      HalvedLater(size, k - 1);
    }
  }

  /** Every chunk fits when the frame is cut every `size` bytes. */
  ghost predicate FitsAt(codec: Codec, frame: Bytes, header: Header, maxBytes: int, size: nat) {
    size > 0 && forall i: nat :: i < CutCount(|frame|, size) ==>
      |ChunkAt(codec, frame, header, size, i)| <= maxBytes
  }

  /** `chunks` are cut at the first size of the halving sequence at which they fit. */
  ghost predicate CutAtFirstFit(
      codec: Codec, frame: Bytes, header: Header, maxBytes: int, start: nat, k: nat, chunks: seq<Bytes>)
  {
    && FitsAt(codec, frame, header, maxBytes, Halved(start, k))
    && (forall j: nat :: j < k ==> !FitsAt(codec, frame, header, maxBytes, Halved(start, j)))
    && ChunkedAt(codec, frame, header, Halved(start, k), chunks)
  }

  ghost predicate NothingFits(codec: Codec, frame: Bytes, header: Header, maxBytes: int, start: nat) {
    forall k: nat :: !FitsAt(codec, frame, header, maxBytes, Halved(start, k))
  }

  lemma AllWithinIffFits(codec: Codec, frame: Bytes, header: Header, maxBytes: int, size: nat)
    requires size > 0
    ensures AllWithin(ChunkFrames(codec, frame, header, Cut(frame, size)), maxBytes)
            <==> FitsAt(codec, frame, header, maxBytes, size)
  {
    FramesAreChunks(codec, frame, header, size);
    var chunks := ChunkFrames(codec, frame, header, Cut(frame, size));
    if AllWithin(chunks, maxBytes) {
      forall i: nat | i < CutCount(|frame|, size)
        ensures |ChunkAt(codec, frame, header, size, i)| <= maxBytes
      {
        assert chunks[i] == ChunkAt(codec, frame, header, size, i);
      }
    }
  }

  /** The size at which the loop stops is the first of the halving sequence that fits. */
  lemma {:induction false} ChosenSizeIsFirst(codec: Codec, frame: Bytes, header: Header, maxBytes: int, size: nat)
    returns (k: nat)
    requires size > 0
    ensures
      var chosen := ChosenSize(codec, frame, header, maxBytes, size);
      if chosen.None? then NothingFits(codec, frame, header, maxBytes, size)
      else
        && chosen.value == Halved(size, k)
        && var chunks := ChunkFrames(codec, frame, header, Cut(frame, chosen.value));
           CutAtFirstFit(codec, frame, header, maxBytes, size, k, chunks)
    decreases size
  {
    k := 0;
    AllWithinIffFits(codec, frame, header, maxBytes, size);
    if FitsAt(codec, frame, header, maxBytes, size) {
      FramesAreChunks(codec, frame, header, size);
    } else if size == 1 {
      NoneBelowOne(codec, frame, header, maxBytes);
    } else {
      var later := ChosenSizeIsFirst(codec, frame, header, maxBytes, size / 2);
      k := later + 1;
      var chosen := ChosenSize(codec, frame, header, maxBytes, size);
      if chosen.None? {
        NothingFitsEarlier(codec, frame, header, maxBytes, size);
      } else {
        HalvedLater(size, later);
        var chunks := ChunkFrames(codec, frame, header, Cut(frame, chosen.value));
        FirstFitEarlier(codec, frame, header, maxBytes, size, later, chunks);
      }
    }
  }

  lemma NothingFitsEarlier(codec: Codec, frame: Bytes, header: Header, maxBytes: int, size: nat)
    requires !FitsAt(codec, frame, header, maxBytes, size) && NothingFits(codec, frame, header, maxBytes, size / 2)
    ensures NothingFits(codec, frame, header, maxBytes, size)
  {
    forall j: nat
      ensures !FitsAt(codec, frame, header, maxBytes, Halved(size, j))
    {
      if j > 0 {
        HalvedLater(size, j - 1);
      }
    }
  }

  lemma FirstFitEarlier(
      codec: Codec, frame: Bytes, header: Header, maxBytes: int, size: nat, later: nat, chunks: seq<Bytes>)
    requires !FitsAt(codec, frame, header, maxBytes, size)
    requires CutAtFirstFit(codec, frame, header, maxBytes, size / 2, later, chunks)
    ensures CutAtFirstFit(codec, frame, header, maxBytes, size, later + 1, chunks)
  {
    HalvedLater(size, later);
    forall j: nat | j <= later
      ensures !FitsAt(codec, frame, header, maxBytes, Halved(size, j))
    {
      if j > 0 {
        HalvedLater(size, j - 1);
      }
    }
  }

  lemma {:induction false} HalvedOne(k: nat)
    ensures Halved(1, k) == if k == 0 then 1 else 0
    decreases k
  {
    if k > 0 {
      HalvedOne(k - 1);
    }
  }

  lemma NoneBelowOne(codec: Codec, frame: Bytes, header: Header, maxBytes: int)
    requires !FitsAt(codec, frame, header, maxBytes, 1)
    ensures NothingFits(codec, frame, header, maxBytes, 1)
  {
    forall k: nat
      ensures !FitsAt(codec, frame, header, maxBytes, Halved(1, k))
    {
      HalvedOne(k);
    }
  }

  /** The frame goes out as it is. */
  predicate GoesWhole(frame: Bytes, maxBytes: int, forceChunk: bool) {
    !forceChunk && (maxBytes <= 0 || |frame| <= maxBytes)
  }

  /** What the encoder answers: the frame itself, an error, or its chunks at the first fitting size. */
  ghost function Sent(
      codec: Codec, frame: Bytes, kind: string, maxBytes: int, forceChunk: bool, header: Header):
    Result<seq<Bytes>, ChunkError>
  {
    if GoesWhole(frame, maxBytes, forceChunk) then Ok([frame])
    else if 0 < maxBytes <= CHUNK_OVERHEAD then Err(MaxBytesTooSmall)
    else if !KnownKind(kind) then Err(UnknownKind)
    else if maxBytes <= 0 then Ok(ChunkFrames(codec, frame, header, [frame]))
    else
      var size := ChosenSize(codec, frame, header, maxBytes, maxBytes - CHUNK_OVERHEAD);
      if size.None? then Err(FrameTooSmall) else Ok(ChunkFrames(codec, frame, header, Cut(frame, size.value)))
  }

  lemma SentIsChunking(codec: Codec, frame: Bytes, kind: string, maxBytes: int, forceChunk: bool, header: Header)
    requires header.kind == kind && !GoesWhole(frame, maxBytes, forceChunk)
    requires Sent(codec, frame, kind, maxBytes, forceChunk, header).Ok?
    ensures IsChunking(codec, frame, kind, Sent(codec, frame, kind, maxBytes, forceChunk, header).value)
  {
    if maxBytes <= 0 {
      assert Cut(frame, |frame| + 1) == [frame];
    }
  }

  /** The answer to any call: the frame as it is, an error, or its chunks, cut by `maxBytes` less the overhead,
      or that halved as often as it takes for every chunk to fit. */
  ghost predicate Answers(
      codec: Codec, frame: Bytes, maxBytes: int, forceChunk: bool, header: Header,
      r: Result<seq<Bytes>, ChunkError>)
  {
    if GoesWhole(frame, maxBytes, forceChunk) then r == Ok([frame])
    else if 0 < maxBytes <= CHUNK_OVERHEAD then r == Err(MaxBytesTooSmall)
    else if !KnownKind(header.kind) then r == Err(UnknownKind)
    else if maxBytes <= 0 then
      var desc := Desc(header.kind, 0, 1, codec.digest(frame), |frame|, header.group, header.operation);
      r == Ok([codec.write(desc, frame)])
    else
      var start := maxBytes - CHUNK_OVERHEAD;
      match r
      case Ok(chunks) => exists k: nat :: CutAtFirstFit(codec, frame, header, maxBytes, start, k, chunks)
      case Err(error) => error == FrameTooSmall && NothingFits(codec, frame, header, maxBytes, start)
  }

  lemma SentAnswers(codec: Codec, frame: Bytes, kind: string, maxBytes: int, forceChunk: bool, header: Header)
    requires header.kind == kind
    ensures Answers(
              codec, frame, maxBytes, forceChunk, header, Sent(codec, frame, kind, maxBytes, forceChunk, header))
  {
    if maxBytes > CHUNK_OVERHEAD {
      var k := ChosenSizeIsFirst(codec, frame, header, maxBytes, maxBytes - CHUNK_OVERHEAD);
    } else if maxBytes <= 0 {
      var desc := Desc(header.kind, 0, 1, codec.digest(frame), |frame|, header.group, header.operation);
      assert ChunkFrames(codec, frame, header, [frame]) == [codec.write(desc, frame)];
    }
  }

  /** Split a frame, halving the payload size until every chunk fits. `freshId` stands for a new uuid. */
  method EncodeByteChunks(
      codec: Codec, frame: Bytes, kind: string, operation: Option<string>, maxBytes: int,
      groupId: Option<string>, forceChunk: bool, freshId: string)
    returns (r: Result<seq<Bytes>, ChunkError>)
    ensures r == Sent(codec, frame, kind, maxBytes, forceChunk, HeaderFor(kind, operation, groupId, freshId))
    ensures Answers(codec, frame, maxBytes, forceChunk, HeaderFor(kind, operation, groupId, freshId), r)
    ensures r.Ok? && maxBytes > 0 ==> AllWithin(r.value, maxBytes)
    ensures r.Ok? && !GoesWhole(frame, maxBytes, forceChunk) ==> IsChunking(codec, frame, kind, r.value)
  {
    SentAnswers(codec, frame, kind, maxBytes, forceChunk, HeaderFor(kind, operation, groupId, freshId));
    if !forceChunk && (maxBytes <= 0 || |frame| <= maxBytes) {
      return Ok([frame]);
    }
    if 0 < maxBytes <= CHUNK_OVERHEAD {
      return Err(MaxBytesTooSmall);
    }
    if !KnownKind(kind) {
      return Err(UnknownKind);
    }
    var header := HeaderFor(kind, operation, groupId, freshId);
    if Sent(codec, frame, kind, maxBytes, forceChunk, header).Ok? {
      SentIsChunking(codec, frame, kind, maxBytes, forceChunk, header);
    }
    if maxBytes <= 0 {
      return Ok(ChunkFrames(codec, frame, header, [frame]));
    }
    var payloadSize := maxBytes - CHUNK_OVERHEAD;
    while true
      invariant payloadSize >= 1
      invariant ChosenSize(codec, frame, header, maxBytes, payloadSize)
             == ChosenSize(codec, frame, header, maxBytes, maxBytes - CHUNK_OVERHEAD)
      decreases payloadSize
    {
      var chunks := ChunkFrames(codec, frame, header, Cut(frame, payloadSize));
      if AllWithin(chunks, maxBytes) {
        return Ok(chunks);
      }
      if payloadSize == 1 {
        return Err(FrameTooSmall);
      }
      payloadSize := if payloadSize / 2 < 1 then 1 else payloadSize / 2;
    }
  }

  // ---------------------------------------------------------------- decoding

  /** Chunks of one frame agree on everything but their index. */
  predicate Agrees(d: Desc, first: Desc) {
    d == first.(index := d.index)
  }

  ghost predicate Described(codec: Codec, chunks: seq<Bytes>) {
    forall i :: 0 <= i < |chunks| ==> codec.describe(chunks[i]).Some?
  }

  ghost function IndexOf(codec: Codec, chunks: seq<Bytes>, i: nat): int
    requires i < |chunks| && codec.describe(chunks[i]).Some?
  {
    codec.describe(chunks[i]).value.index
  }

  /** Chunk `i` belongs to the frame of chunk 0 and carries bytes. */
  ghost predicate Fits(codec: Codec, chunks: seq<Bytes>, i: nat)
    requires Described(codec, chunks) && i < |chunks|
  {
    var first := codec.describe(chunks[0]).value;
    && Agrees(codec.describe(chunks[i]).value, first)
    && 0 <= IndexOf(codec, chunks, i) < first.total
    && codec.payload(chunks[i]).Some?
  }

  ghost predicate Consistent(codec: Codec, chunks: seq<Bytes>, k: nat)
    requires Described(codec, chunks) && k <= |chunks|
  {
    && (forall i :: 0 <= i < k ==> Fits(codec, chunks, i))
    && (forall i, j :: 0 <= i < j < k ==> IndexOf(codec, chunks, i) != IndexOf(codec, chunks, j))
  }

  /** The first field in which a chunk differs from the first chunk, in the order they are compared. */
  function Disagreement(d: Desc, first: Desc): (problem: Option<ChunkError>)
    ensures problem.None? <==> Agrees(d, first)
  {
    if d.kind != first.kind then Some(KindsMixed)
    else if d.total != first.total then Some(TotalDiffers)
    else if d.digest != first.digest then Some(DigestDiffers)
    else if d.size != first.size then Some(SizeDiffers)
    else if d.group != first.group then Some(GroupDiffers)
    else if d.operation != first.operation then Some(OperationDiffers)
    else None
  }

  /** What is wrong with chunk `i`, given the chunks before it. */
  ghost function ChunkProblem(codec: Codec, chunks: seq<Bytes>, i: nat): Option<ChunkError>
    requires Described(codec, chunks) && i < |chunks|
  {
    var d, first := codec.describe(chunks[i]).value, codec.describe(chunks[0]).value;
    if Disagreement(d, first).Some? then Disagreement(d, first)
    else if !(0 <= d.index < first.total) then Some(IndexOutOfRange)
    else if exists j :: 0 <= j < i && IndexOf(codec, chunks, j) == d.index then Some(DuplicateIndex)
    else if codec.payload(chunks[i]).None? then Some(BadPayload)
    else None
  }

  /** The first problem among the first `k` chunks. */
  ghost function FirstProblem(codec: Codec, chunks: seq<Bytes>, k: nat): Option<ChunkError>
    requires Described(codec, chunks) && k <= |chunks|
  {
    if k == 0 then None
    else
      var prior := FirstProblem(codec, chunks, k - 1);
      if prior.Some? then prior else ChunkProblem(codec, chunks, k - 1)
  }

  lemma {:induction false} NoProblemIffConsistent(codec: Codec, chunks: seq<Bytes>, k: nat)
    requires Described(codec, chunks) && k <= |chunks|
    ensures FirstProblem(codec, chunks, k).None? <==> Consistent(codec, chunks, k)
    decreases k
  {
    if k > 0 {
      NoProblemIffConsistent(codec, chunks, k - 1);
      assert ChunkProblem(codec, chunks, k - 1).None? ==> Fits(codec, chunks, k - 1);
      if Consistent(codec, chunks, k) {
        assert Fits(codec, chunks, k - 1);
      }
    }
  }

  lemma {:induction false} FirstProblemStays(codec: Codec, chunks: seq<Bytes>, k: nat, n: nat)
    requires Described(codec, chunks) && k <= n <= |chunks| && FirstProblem(codec, chunks, k).Some?
    ensures FirstProblem(codec, chunks, n) == FirstProblem(codec, chunks, k)
    decreases n
  {
    if k < n {
      FirstProblemStays(codec, chunks, k, n - 1);
    }
  }

  /** The (index, payload) pairs of the first `k` chunks. */
  ghost function Indexed(codec: Codec, chunks: seq<Bytes>, k: nat): (pairs: seq<(int, Bytes)>)
    requires Described(codec, chunks) && k <= |chunks| && Consistent(codec, chunks, k)
    ensures |pairs| == k
  {
    seq(k, i requires 0 <= i < k =>
             assert Fits(codec, chunks, i); (IndexOf(codec, chunks, i), codec.payload(chunks[i]).value))
  }

  function ByIndex(): ((int, Bytes), (int, Bytes)) -> bool {
    (a: (int, Bytes), b: (int, Bytes)) => a.0 <= b.0
  }

  function Payloads(pairs: seq<(int, Bytes)>): (parts: seq<Bytes>)
    ensures |parts| == |pairs| && forall i :: 0 <= i < |pairs| ==> parts[i] == pairs[i].1
  {
    seq(|pairs|, i requires 0 <= i < |pairs| => pairs[i].1)
  }

  /** The reassembled bytes: payloads in index order. */
  function Reassembled(pairs: seq<(int, Bytes)>): Bytes {
    Flatten(Payloads(SortBy(ByIndex(), pairs)))
  }

  /** When reassembly of described chunks succeeds. */
  ghost predicate Reassembles(codec: Codec, chunks: seq<Bytes>, kind: Option<string>)
    requires Described(codec, chunks) && chunks != []
  {
    var first := codec.describe(chunks[0]).value;
    && (kind.Some? ==> first.kind == kind.value)
    && |chunks| == first.total
    && Consistent(codec, chunks, |chunks|)
    && var frame := Reassembled(Indexed(codec, chunks, |chunks|));
       |frame| == first.size && codec.digest(frame) == first.digest
  }

  /** What the decoder answers: every check in the order it runs. */
  ghost function Decoded(codec: Codec, chunks: seq<Bytes>, kind: Option<string>): Result<Bytes, ChunkError> {
    if chunks == [] then Err(NoChunks)
    else if |chunks| == 1 && codec.describe(chunks[0]).None? then Ok(chunks[0])
    else if !Described(codec, chunks) then Err(NoDescriptor)
    else
      var first := codec.describe(chunks[0]).value;
      if kind.Some? && first.kind != kind.value then Err(WrongKind)
      else if |chunks| != first.total then Err(WrongCount)
      else if FirstProblem(codec, chunks, |chunks|).Some? then Err(FirstProblem(codec, chunks, |chunks|).value)
      else
        NoProblemIffConsistent(codec, chunks, |chunks|);
        var frame := Reassembled(Indexed(codec, chunks, |chunks|));
        if |frame| != first.size then Err(SizeMismatch)
        else if codec.digest(frame) != first.digest then Err(DigestMismatch)
        else Ok(frame)
  }

  method DecodeByteChunks(codec: Codec, chunks: seq<Bytes>, kind: Option<string>) returns (r: Result<Bytes, ChunkError>)
    ensures r == Decoded(codec, chunks, kind) && r != Err(MissingChunks)
    ensures chunks != [] && Described(codec, chunks) ==>
              && (r.Ok? <==> Reassembles(codec, chunks, kind))
              && (r.Ok? ==> r.value == Reassembled(Indexed(codec, chunks, |chunks|)))
  {
    if chunks == [] {
      return Err(NoChunks);
    }
    if |chunks| == 1 && codec.describe(chunks[0]).None? {
      return Ok(chunks[0]);
    }
    if exists i :: 0 <= i < |chunks| && codec.describe(chunks[i]).None? {
      return Err(NoDescriptor);
    }
    var first := codec.describe(chunks[0]).value;
    if kind.Some? && first.kind != kind.value {
      return Err(WrongKind);
    }
    if |chunks| != first.total {
      return Err(WrongCount);
    }
    NoProblemIffConsistent(codec, chunks, |chunks|);
    var ordered, seen := CollectPairs(codec, chunks, first);
    if ordered.Err? {
      return Err(ordered.error);
    }
    SeenIsAll(codec, chunks);
    var wanted := set i | i in Range(|chunks|);
    if seen != wanted {
      return Err(MissingChunks);
    }
    var frame := Reassembled(ordered.value);
    if |frame| != first.size {
      return Err(SizeMismatch);
    }
    if codec.digest(frame) != first.digest {
      return Err(DigestMismatch);
    }
    return Ok(frame);
  }

  /** The loop over the chunks: every check, the set of indices seen, and the list of pairs. */
  method CollectPairs(codec: Codec, chunks: seq<Bytes>, first: Desc)
    returns (r: Result<seq<(int, Bytes)>, ChunkError>, seen: set<int>)
    requires chunks != [] && Described(codec, chunks) && codec.describe(chunks[0]) == Some(first)
    ensures r.Ok? <==> Consistent(codec, chunks, |chunks|)
    ensures r.Ok? ==> r.value == Indexed(codec, chunks, |chunks|)
    ensures r.Ok? ==> seen == set i | 0 <= i < |chunks| :: IndexOf(codec, chunks, i)
    ensures r.Err? ==> Some(r.error) == FirstProblem(codec, chunks, |chunks|)
    ensures r.Err? ==> r.error != MissingChunks
  {
    seen := {};
    var ordered: seq<(int, Bytes)> := [];
    for k := 0 to |chunks|
      invariant Consistent(codec, chunks, k) && ordered == Indexed(codec, chunks, k)
      invariant seen == set i | 0 <= i < k :: IndexOf(codec, chunks, i)
    {
      var desc, payload := codec.describe(chunks[k]).value, codec.payload(chunks[k]);
      ProblemAt(codec, chunks, k);
      var differs := Disagreement(desc, first);
      if differs.Some? {
        return Err(differs.value), seen;
      }
      if desc.index < 0 || desc.index >= first.total {
        return Err(IndexOutOfRange), seen;
      }
      if desc.index in seen {
        return Err(DuplicateIndex), seen;
      }
      if payload.None? {
        return Err(BadPayload), seen;
      }
      assert Fits(codec, chunks, k);
      seen := seen + {desc.index};
      ordered := ordered + [(desc.index, payload.value)];
    }
    return Ok(ordered), seen;
  }

  /** After `k` good chunks, a problem with the next one is the answer. */
  lemma ProblemAt(codec: Codec, chunks: seq<Bytes>, k: nat)
    requires Described(codec, chunks) && k < |chunks| && Consistent(codec, chunks, k)
    ensures ChunkProblem(codec, chunks, k).Some? ==>
              && FirstProblem(codec, chunks, |chunks|) == ChunkProblem(codec, chunks, k)
              && !Consistent(codec, chunks, |chunks|)
  {
    NoProblemIffConsistent(codec, chunks, k);
    NoProblemIffConsistent(codec, chunks, |chunks|);
    if ChunkProblem(codec, chunks, k).Some? {
      FirstProblemStays(codec, chunks, k + 1, |chunks|);
    }
  }

  // ---------------------------------------------------------------- what a successful decode has seen

  ghost function Indices(codec: Codec, chunks: seq<Bytes>): (indices: seq<nat>)
    requires Described(codec, chunks) && Consistent(codec, chunks, |chunks|)
    ensures |indices| == |chunks|
    ensures forall i :: 0 <= i < |chunks| ==> indices[i] == IndexOf(codec, chunks, i)
  {
    seq(|chunks|, i requires 0 <= i < |chunks| && Fits(codec, chunks, i) => NaturalIndex(codec, chunks, i))
  }

  ghost function NaturalIndex(codec: Codec, chunks: seq<Bytes>, i: nat): nat
    requires Described(codec, chunks) && i < |chunks| && Fits(codec, chunks, i)
  {
    IndexOf(codec, chunks, i)
  }

  /** The indices of accepted chunks are exactly 0 to total - 1. */
  lemma IndicesCover(codec: Codec, chunks: seq<Bytes>)
    requires chunks != [] && Described(codec, chunks) && Consistent(codec, chunks, |chunks|)
    requires |chunks| == codec.describe(chunks[0]).value.total
    ensures Perm(Indices(codec, chunks), |chunks|)
  {
    var indices := Indices(codec, chunks);
    forall x | x in indices ensures x < |chunks| {
      var i :| 0 <= i < |indices| && indices[i] == x;
      assert Fits(codec, chunks, i);
    }
    DistinctIsPerm(indices, |chunks|);
  }

  /** So the "missing byte chunks" error cannot be reached. */
  lemma SeenIsAll(codec: Codec, chunks: seq<Bytes>)
    requires chunks != [] && Described(codec, chunks) && Consistent(codec, chunks, |chunks|)
    requires |chunks| == codec.describe(chunks[0]).value.total
    ensures (set i | 0 <= i < |chunks| :: IndexOf(codec, chunks, i)) == (set i | i in Range(|chunks|))
  {
    var indices := Indices(codec, chunks);
    IndicesCover(codec, chunks);
    var seen, wanted := set i | 0 <= i < |chunks| :: IndexOf(codec, chunks, i), set i | i in Range(|chunks|);
    forall x ensures x in seen <==> x in wanted {
      if x in seen {
        var i :| 0 <= i < |chunks| && IndexOf(codec, chunks, i) == x;
        assert indices[i] in multiset(Range(|chunks|));
      }
      if x in wanted {
        assert x in multiset(indices);
        var i :| 0 <= i < |indices| && indices[i] == x;
        assert IndexOf(codec, chunks, i) == x;
      }
    }
  }

  // ---------------------------------------------------------------- round trip

  lemma {:induction false} IncreasingFillsRange(s: seq<int>, i: nat)
    requires i < |s| && (forall p, q :: 0 <= p < q < |s| ==> s[p] < s[q]) && s[0] >= 0
    ensures s[i] >= i
    decreases i
  {
    if i > 0 {
      IncreasingFillsRange(s, i - 1);
    }
  }

  lemma {:induction false} IncreasingBounded(s: seq<int>, i: nat)
    requires i < |s| && (forall p, q :: 0 <= p < q < |s| ==> s[p] < s[q]) && s[|s| - 1] < |s|
    ensures s[i] <= i
    decreases |s| - i
  {
    if i < |s| - 1 {
      IncreasingBounded(s, i + 1);
    }
  }

  /** Pairs whose indices are 0 to n - 1 in any order sort to index order. */
  lemma SortedPairs(pairs: seq<(int, Bytes)>, i: nat)
    requires i < |pairs| && forall j :: 0 <= j < |pairs| ==> 0 <= pairs[j].0 < |pairs|
    requires forall j, k :: 0 <= j < k < |pairs| ==> pairs[j].0 != pairs[k].0
    ensures |SortBy(ByIndex(), pairs)| == |pairs| && SortBy(ByIndex(), pairs)[i] in pairs
            && SortBy(ByIndex(), pairs)[i].0 == i
  {
    var sorted := SortBy(ByIndex(), pairs);
    SortBySorts(ByIndex(), pairs);
    forall j | 0 <= j < |sorted| ensures sorted[j] in pairs {
      assert sorted[j] in multiset(pairs);
    }
    ReorderingIsDistinct(sorted, pairs);
    var keys := seq(|sorted|, j requires 0 <= j < |sorted| => sorted[j].0);
    forall j, k | 0 <= j < k < |sorted| ensures keys[j] < keys[k] {
      assert ByIndex()(sorted[j], sorted[k]);
      var x, y := sorted[j], sorted[k];
      if x.0 == y.0 {
        SameIndexSamePair(pairs, x, y);
      }
    }
    IncreasingFillsRange(keys, i);
    IncreasingBounded(keys, i);
  }

  lemma SameIndexSamePair(pairs: seq<(int, Bytes)>, x: (int, Bytes), y: (int, Bytes))
    requires x in pairs && y in pairs && x.0 == y.0
    requires forall p, q :: 0 <= p < q < |pairs| ==> pairs[p].0 != pairs[q].0
    ensures x == y
  {
    var p :| 0 <= p < |pairs| && pairs[p] == x;
    var q :| 0 <= q < |pairs| && pairs[q] == y;
    assert p == q;
  }

  /** Each received chunk is one of the sent ones, and no two are the same one. */
  lemma ReceivedChunks(codec: Codec, frame: Bytes, header: Header, pieces: seq<Bytes>, received: seq<Bytes>)
    requires Lossless(codec) && pieces != []
    requires multiset(received) == multiset(ChunkFrames(codec, frame, header, pieces))
    ensures |received| == |pieces| && Described(codec, received)
    ensures forall i :: 0 <= i < |received| ==>
              var index := IndexOf(codec, received, i);
              && 0 <= index < |pieces|
              && codec.describe(received[i]).value == ChunkDesc(codec, frame, header, index, |pieces|)
              && codec.payload(received[i]) == Some(pieces[index])
    ensures forall i, j :: 0 <= i < j < |received| ==> IndexOf(codec, received, i) != IndexOf(codec, received, j)
  {
    var sent := ChunkFrames(codec, frame, header, pieces);
    assert |multiset(received)| == |multiset(sent)|;
    forall i | 0 <= i < |sent| ensures codec.describe(sent[i]) == Some(ChunkDesc(codec, frame, header, i, |pieces|)) {
      assert sent[i] == codec.write(ChunkDesc(codec, frame, header, i, |pieces|), pieces[i]);
    }
    forall i | 0 <= i < |received|
      ensures
        && codec.describe(received[i]).Some?
        && var index := codec.describe(received[i]).value.index;
           && 0 <= index < |pieces| && received[i] == sent[index]
           && codec.describe(received[i]).value == ChunkDesc(codec, frame, header, index, |pieces|)
           && codec.payload(received[i]) == Some(pieces[index])
    {
      assert received[i] in multiset(sent);
      var k :| 0 <= k < |sent| && sent[k] == received[i];
      assert received[i] == codec.write(ChunkDesc(codec, frame, header, k, |pieces|), pieces[k]);
    }
    assert Distinct(sent);
    ReorderingIsDistinct(received, sent);
  }

  /** Decoding any permutation of a frame's chunks succeeds and returns the frame. */
  lemma ChunksRoundTrip(codec: Codec, frame: Bytes, kind: string, chunks: seq<Bytes>, received: seq<Bytes>)
    requires Lossless(codec) && IsChunking(codec, frame, kind, chunks) && multiset(received) == multiset(chunks)
    ensures received != [] && Described(codec, received) && Consistent(codec, received, |received|)
    ensures Reassembled(Indexed(codec, received, |received|)) == frame
    ensures Reassembles(codec, received, None) && Reassembles(codec, received, Some(kind))
  {
    var header: Header, size: nat :| size > 0 && header.kind == kind
        && chunks == ChunkFrames(codec, frame, header, Cut(frame, size));
    var pieces := Cut(frame, size);
    ReceivedChunks(codec, frame, header, pieces, received);
    forall i | 0 <= i < |received| ensures Fits(codec, received, i) {
      assert 0 <= IndexOf(codec, received, i) < |pieces|;
      assert 0 <= IndexOf(codec, received, 0) < |pieces|;
    }
    ReassemblyJoinsCut(codec, pieces, received);
    CutJoins(frame, size);
    assert 0 <= IndexOf(codec, received, 0) < |pieces|;
  }

  lemma ReassemblyJoinsCut(codec: Codec, pieces: seq<Bytes>, received: seq<Bytes>)
    requires |received| == |pieces| && Described(codec, received) && Consistent(codec, received, |received|)
    requires forall i :: 0 <= i < |received| ==>
               var index := IndexOf(codec, received, i);
               0 <= index < |pieces| && codec.payload(received[i]) == Some(pieces[index])
    ensures Reassembled(Indexed(codec, received, |received|)) == Flatten(pieces)
  {
    var pairs := Indexed(codec, received, |received|);
    forall i | 0 <= i < |pairs| ensures 0 <= pairs[i].0 < |pairs| && pairs[i].1 == pieces[pairs[i].0] {
      assert pairs[i].0 == IndexOf(codec, received, i);
    }
    forall i, j | 0 <= i < j < |pairs| ensures pairs[i].0 != pairs[j].0 {
      assert IndexOf(codec, received, i) != IndexOf(codec, received, j);
    }
    SortedPairsJoin(pairs, pieces);
  }

  /** Pairs that carry each piece under its own index give the pieces in order. */
  lemma SortedPairsJoin(pairs: seq<(int, Bytes)>, pieces: seq<Bytes>)
    requires |pairs| == |pieces|
    requires forall i :: 0 <= i < |pairs| ==> 0 <= pairs[i].0 < |pairs| && pairs[i].1 == pieces[pairs[i].0]
    requires forall i, j :: 0 <= i < j < |pairs| ==> pairs[i].0 != pairs[j].0
    ensures Payloads(SortBy(ByIndex(), pairs)) == pieces
  {
    var sorted := SortBy(ByIndex(), pairs);
    forall i | 0 <= i < |pairs| ensures |sorted| == |pairs| && sorted[i].1 == pieces[i] {
      SortedPairs(pairs, i);
      var p :| 0 <= p < |pairs| && pairs[p] == sorted[i];
    }
    if pairs != [] {
      SortedPairs(pairs, 0);
    }
  }

  /** Decoding any permutation of whatever the encoder sent returns the frame, with or without the kind
      given, provided a frame that goes out whole carries no chunk descriptor of its own. */
  lemma SentComesBack(
      codec: Codec, frame: Bytes, kind: string, maxBytes: int, forceChunk: bool, header: Header,
      received: seq<Bytes>, expected: Option<string>)
    requires Lossless(codec) && header.kind == kind && (expected.Some? ==> expected.value == kind)
    requires GoesWhole(frame, maxBytes, forceChunk) ==> codec.describe(frame).None?
    requires Sent(codec, frame, kind, maxBytes, forceChunk, header).Ok?
    requires multiset(received) == multiset(Sent(codec, frame, kind, maxBytes, forceChunk, header).value)
    ensures Decoded(codec, received, expected) == Ok(frame)
  {
    var chunks := Sent(codec, frame, kind, maxBytes, forceChunk, header).value;
    if GoesWhole(frame, maxBytes, forceChunk) {
      assert |multiset(received)| == |multiset([frame])| && received[0] in multiset([frame]);
    } else {
      SentIsChunking(codec, frame, kind, maxBytes, forceChunk, header);
      ChunksRoundTrip(codec, frame, kind, chunks, received);
      NoProblemIffConsistent(codec, received, |received|);
      assert Reassembles(codec, received, expected);
    }
  }

  /** The two operations composed: encode, deliver in any order, decode. */
  method SendAndReceive(
      codec: Codec, frame: Bytes, kind: string, operation: Option<string>, maxBytes: int,
      groupId: Option<string>, forceChunk: bool, freshId: string, delivery: seq<Bytes> -> seq<Bytes>,
      expected: Option<string>)
    returns (sent: Result<seq<Bytes>, ChunkError>, r: Result<Bytes, ChunkError>)
    requires Lossless(codec) && (expected.Some? ==> expected.value == kind)
    requires GoesWhole(frame, maxBytes, forceChunk) ==> codec.describe(frame).None?
    requires forall chunks :: multiset(delivery(chunks)) == multiset(chunks)
    ensures r == if sent.Ok? then Ok(frame) else Err(sent.error)
  {
    sent := EncodeByteChunks(codec, frame, kind, operation, maxBytes, groupId, forceChunk, freshId);
    if sent.Err? {
      return sent, Err(sent.error);
    }
    var received := delivery(sent.value);
    r := DecodeByteChunks(codec, received, expected);
    SentComesBack(codec, frame, kind, maxBytes, forceChunk, HeaderFor(kind, operation, groupId, freshId), received,
        expected);
  }
}
