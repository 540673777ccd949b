/**
 One data block from the writer's bytes to the reader's bytes: shuffle, cut, compress, describe;
 parse, decompress, put back in place.
 */
module BlockPipeline {
  import opened Base
  import opened Descriptors
  import opened ByteShuffle

  /** A compression library: `compress` is given an output budget, `decompress` the expected size. */
  datatype Codec = Codec(
    kind: CodecKind,
    compress: (Bytes, int) -> Result<Bytes>,
    decompress: (Bytes, int) -> Result<Bytes>)

  ghost predicate RespectsBudget(codec: Codec) {
    forall x: Bytes, budget: int :: codec.compress(x, budget).Ok? ==> |codec.compress(x, budget).value| <= budget
  }

  /** What the round trip asks of a codec; it holds of each library the repository links. */
  ghost predicate Lossless(codec: Codec) {
    && codec.kind != NoCodec
    && RespectsBudget(codec)
    && forall x: Bytes, budget: int :: codec.compress(x, budget).Ok? ==>
         && codec.compress(x, budget).value != []
         && codec.decompress(codec.compress(x, budget).value, |x|) == Ok(x)
  }

  lemma LosslessAt(codec: Codec, x: Bytes, budget: int)
    requires Lossless(codec)
    ensures codec.kind != NoCodec && RespectsBudget(codec)
    ensures codec.compress(x, budget).Ok? ==>
              && 0 < |codec.compress(x, budget).value| <= budget
              && codec.decompress(codec.compress(x, budget).value, |x|) == Ok(x)
  {
  }

  // ---------------------------------------------------------------- writer

  datatype PrepareOptions = PrepareOptions(
    subblockBytes: U64,
    maxSubblocks: U64,
    maxSerialized: U64,
    maxCumulative: U64,
    hasScratchStem: bool)

  datatype PreparedBlock = PreparedBlock(
    stored: Bytes,
    spooled: bool,
    serializedSize: U64,
    compression: string,
    subblocks: string,
    checksum: string)

  const LZ4_MAX_INPUT_SIZE: U64 := 0x7E00_0000

  function ChunkLimit(kind: CodecKind, subblockBytes: U64): U64 {
    if kind == Lz4 || kind == Lz4hc then Min(subblockBytes, LZ4_MAX_INPUT_SIZE) else subblockBytes
  }

  datatype Encoding = Encoding(serialized: Bytes, list: seq<Subblock>)

  /** The pieces of stream[at..]: each takes `limit` bytes, or what is left, out of the remaining budget. */
  function EncodeFrom(codec: Codec, stream: Bytes, at: int, limit: int, room: int, budget: int): (r: Result<Encoding>)
    requires RespectsBudget(codec) && 0 <= at <= |stream| <= MAX_U64 && 0 < limit && budget <= MAX_U64
    decreases |stream| - at
  {
    if at == |stream| then Ok(Encoding([], []))
    else if room <= 0 || budget <= 0 then Err(ResourceLimit)
    else
      var n := Min(limit, |stream| - at);
      var piece :- codec.compress(stream[at..at + n], budget);
      var rest :- EncodeFrom(codec, stream, at + n, limit, room - 1, budget - |piece|);
      Ok(Encoding(piece + rest.serialized, [Subblock(|piece|, n)] + rest.list))
  }

  function StreamOf(bytes: Bytes, item: int, shuffle: bool): (stream: Bytes)
    requires 0 < item
    ensures |stream| == |bytes|
  {
    if shuffle then Shuffled(bytes, item) else bytes
  }

  function EncodingOf(codec: Codec, bytes: Bytes, item: U64, shuffle: bool, options: PrepareOptions): Result<Encoding>
    requires RespectsBudget(codec) && |bytes| <= MAX_U64
  {
    var limit := ChunkLimit(codec.kind, options.subblockBytes);
    if limit == 0 || item == 0 || (|bytes| > limit && !options.hasScratchStem) then Err(InvalidArgument)
    else EncodeFrom(codec, StreamOf(bytes, item, shuffle), 0, limit, options.maxSubblocks,
                    Min(options.maxSerialized, options.maxCumulative))
  }

  function PlanFor(codec: Codec, bytes: Bytes, item: U64, shuffle: bool, list: seq<Subblock>): CompressionPlan
    requires |bytes| <= MAX_U64
  {
    CompressionPlan(codec.kind, shuffle, |bytes|, if shuffle then item else 1, list)
  }

  /** The bytes the emission loops take: the stored pieces if there are any, else the caller's own span. */
  function EmittedBytes(block: PreparedBlock, bytes: Bytes): Bytes {
    if !block.spooled && block.stored == [] then bytes else block.stored
  }

  function Prepended(done: Encoding, r: Result<Encoding>): Result<Encoding> {
    if r.Ok? then Ok(Encoding(done.serialized + r.value.serialized, done.list + r.value.list)) else r
  }

  lemma PrependedNothing(r: Result<Encoding>)
    ensures Prepended(Encoding([], []), r) == r
  {
    if r.Ok? {
      assert [] + r.value.serialized == r.value.serialized && [] + r.value.list == r.value.list;
    }
  }

  lemma PrependedTwice(done: Encoding, piece: Bytes, sub: Subblock, r: Result<Encoding>)
    ensures Prepended(done, Prepended(Encoding(piece, [sub]), r))
         == Prepended(Encoding(done.serialized + piece, done.list + [sub]), r)
  {
    if r.Ok? {
      assert done.serialized + (piece + r.value.serialized) == done.serialized + piece + r.value.serialized;
      assert done.list + ([sub] + r.value.list) == done.list + [sub] + r.value.list;
    }
  }

  /** One turn of the compression loop: the next piece moves from what is still to be encoded to what is done. */
  lemma EncodingAdvance(codec: Codec, stream: Bytes, at: int, limit: int, room: int, budget: int, done: Encoding)
    requires RespectsBudget(codec) && 0 <= at < |stream| <= MAX_U64 && 0 < limit && budget <= MAX_U64
    ensures var n := Min(limit, |stream| - at);
            var piece := codec.compress(stream[at..at + n], budget);
            && (piece.Ok? ==> |piece.value| <= budget)
            && Prepended(done, EncodeFrom(codec, stream, at, limit, room, budget))
               == if room <= 0 || budget <= 0 then Err(ResourceLimit)
                  else if piece.Err? then Err(piece.error)
                  else Prepended(Encoding(done.serialized + piece.value, done.list + [Subblock(|piece.value|, n)]),
                                 EncodeFrom(codec, stream, at + n, limit, room - 1, budget - |piece.value|))
  {
    var n := Min(limit, |stream| - at);
    var piece := codec.compress(stream[at..at + n], budget);
    if room > 0 && budget > 0 && piece.Ok? {
      PrependedTwice(done, piece.value, Subblock(|piece.value|, n),
                     EncodeFrom(codec, stream, at + n, limit, room - 1, budget - |piece.value|));
    }
  }

  /** Gathers one piece of the stream from the block and compresses it. */
  method CompressPiece(codec: Codec, bytes: Bytes, item: U64, shuffle: bool, offset: U64, n: U64, budget: int)
    returns (r: Result<Bytes>)
    requires offset + n <= |bytes| <= MAX_U64 && 0 < item
    ensures r == codec.compress(StreamOf(bytes, item, shuffle)[offset..offset + n], budget)
  {
    var input := bytes[offset..offset + n];
    if shuffle {
      var gathered := ShuffledRange(bytes, item, offset, n);
      input := gathered.value;
    }
    return codec.compress(input, budget);
  }

  /** The compression loop of `prepare_block`. */
  method CompressPieces(codec: Codec, bytes: Bytes, item: U64, shuffle: bool, limit: U64, options: PrepareOptions)
    returns (r: Result<Encoding>)
    requires RespectsBudget(codec) && |bytes| <= MAX_U64 && 0 < limit && 0 < item
    ensures r == EncodeFrom(codec, StreamOf(bytes, item, shuffle), 0, limit, options.maxSubblocks,
                            Min(options.maxSerialized, options.maxCumulative))
  {
    hide EncodeFrom, StreamOf, RespectsBudget, Prepended;
    ghost var stream := StreamOf(bytes, item, shuffle);
    ghost var budget := Min(options.maxSerialized, options.maxCumulative);
    ghost var whole := EncodeFrom(codec, stream, 0, limit, options.maxSubblocks, budget);
    var done := Encoding([], []);
    var inputOffset: U64 := 0;
    PrependedNothing(whole);
    while inputOffset < |bytes|
      invariant 0 <= inputOffset <= |bytes|
      invariant |done.serialized| <= budget
      invariant whole == Prepended(done, EncodeFrom(codec, stream, inputOffset, limit, options.maxSubblocks - |done.list|,
                                                    budget - |done.serialized|))
    {
      EncodingAdvance(codec, stream, inputOffset, limit, options.maxSubblocks - |done.list|, budget - |done.serialized|, done);
      if |done.list| >= options.maxSubblocks {
        return Err(ResourceLimit);
      }
      var n: U64 := Min(limit, |bytes| - inputOffset);
      if |done.serialized| >= options.maxSerialized || |done.serialized| >= options.maxCumulative {
        return Err(ResourceLimit);
      }
      var remaining := Min(options.maxSerialized - |done.serialized|, options.maxCumulative - |done.serialized|);
      var piece :- CompressPiece(codec, bytes, item, shuffle, inputOffset, n, remaining);
      done := Encoding(done.serialized + piece, done.list + [Subblock(|piece|, n)]);
      inputOffset := inputOffset + n;
    }
    EncodingEnds(codec, stream, limit, options.maxSubblocks - |done.list|, budget - |done.serialized|);
    PrependedDone(done);
    return Ok(done);
  }

  lemma PrependedDone(done: Encoding)
    ensures Prepended(done, Ok(Encoding([], []))) == Ok(done)
  {
    assert done.serialized + [] == done.serialized && done.list + [] == done.list;
  }

  function PreparedOf(
    codec: Codec, bytes: Bytes, item: U64, shuffle: bool, options: PrepareOptions, digest: Bytes -> string): Result<PreparedBlock>
    requires RespectsBudget(codec) && |bytes| <= MAX_U64
  {
    if codec.kind == NoCodec then
      if |bytes| > options.maxSerialized || |bytes| > options.maxCumulative then Err(ResourceLimit)
      else Ok(PreparedBlock([], false, |bytes|, "", "", digest(bytes)))
    else
      var e :- EncodingOf(codec, bytes, item, shuffle, options);
      if |e.serialized| > options.maxSerialized || |e.serialized| > options.maxCumulative then Err(ResourceLimit)
      else
        var spooled := |bytes| > ChunkLimit(codec.kind, options.subblockBytes);
        Ok(PreparedBlock(e.serialized, spooled, |e.serialized|,
                         PrintCompression(PlanFor(codec, bytes, item, shuffle, e.list)), PrintSubblocks(e.list),
                         digest(if !spooled && e.serialized == [] then bytes else e.serialized)))
  }

  method PrepareBlock(codec: Codec, bytes: Bytes, item: U64, shuffle: bool, options: PrepareOptions, digest: Bytes -> string)
    returns (r: Result<PreparedBlock>)
    requires RespectsBudget(codec) && |bytes| <= MAX_U64
    ensures r == PreparedOf(codec, bytes, item, shuffle, options, digest)
    ensures r.Ok? ==> r.value.checksum == digest(EmittedBytes(r.value, bytes))
  {
    var serialized: Bytes := [];
    var size: U64 := |bytes|;
    var compression, subblocks, spooled := "", "", false;
    if codec.kind != NoCodec {
      var limit := ChunkLimit(codec.kind, options.subblockBytes);
      if limit == 0 || item == 0 {
        return Err(InvalidArgument);
      }
      spooled := |bytes| > limit;
      if spooled && !options.hasScratchStem {
        return Err(InvalidArgument);
      }
      var e :- CompressPieces(codec, bytes, item, shuffle, limit, options);
      if |e.serialized| > options.maxSerialized {
        return Err(ResourceLimit);
      }
      serialized, size := e.serialized, |e.serialized|;
      compression := PrintCompression(PlanFor(codec, bytes, item, shuffle, e.list));
      subblocks := FormatSubblocks(e.list);
    }
    if size > options.maxSerialized || size > options.maxCumulative {
      return Err(ResourceLimit);
    }
    var block := PreparedBlock(serialized, spooled, size, compression, subblocks, "");
    return Ok(block.(checksum := digest(EmittedBytes(block, bytes))));
  }

  // ---------------------------------------------------------------- reader

  /** The widest input or output that the reader hands to a codec in one call. */
  function DecoderLimit(kind: CodecKind): int {
    match kind
    case Zlib => 0xFFFF_FFFF
    case Lz4 => 0x7FFF_FFFF
    case Lz4hc => 0x7FFF_FFFF
    case _ => MAX_U64
  }

  function DecompressSubblock(codec: Codec, input: Bytes, size: int): (r: Result<Bytes>)
    ensures r.Ok? ==> |r.value| == size
  {
    if |input| > DecoderLimit(codec.kind) || size > DecoderLimit(codec.kind) then Err(ResourceLimit)
    else
      var output :- codec.decompress(input, size);
      if |output| == size then Ok(output) else Err(InvalidBlock)
  }

  /** The stream that the listed pieces of serialized[from..] decompress to. */
  function DecodedStream(codec: Codec, serialized: Bytes, from: int, list: seq<Subblock>): (r: Result<Bytes>)
    requires 0 <= from && from + TotalCompressed(list) <= |serialized|
    ensures r.Ok? ==> |r.value| == TotalUncompressed(list)
    decreases |list|
  {
    if list == [] then Ok([])
    else
      var next := from + list[0].compressed;
      var piece :- DecompressSubblock(codec, serialized[from..next], list[0].uncompressed);
      var rest :- DecodedStream(codec, serialized, next, list[1..]);
      Ok(piece + rest)
  }

  function Restored(plan: CompressionPlan, stream: Bytes): (bytes: Bytes)
    requires plan.itemSize > 0
    ensures |bytes| == |stream|
  {
    if plan.byteShuffled then Unshuffled(stream, plan.itemSize) else stream
  }

  function PrependBytes(done: Bytes, r: Result<Bytes>): Result<Bytes> {
    if r.Ok? then Ok(done + r.value) else r
  }

  lemma PrependBytesTwice(done: Bytes, piece: Bytes, r: Result<Bytes>)
    ensures PrependBytes(done, PrependBytes(piece, r)) == PrependBytes(done + piece, r)
    ensures PrependBytes([], r) == r
  {
    if r.Ok? {
      assert done + (piece + r.value) == done + piece + r.value;
      assert [] + r.value == r.value;
    }
  }

  lemma ScatteredCompose(before: Bytes, mid: Bytes, after: Bytes, done: Bytes, piece: Bytes, total: int, item: int)
    requires 0 < item && |done| + |piece| <= total <= |before|
    requires Scattered(before, mid, done, total, item, 0)
    requires Scattered(mid, after, piece, total, item, |done|)
    ensures Scattered(before, after, done + piece, total, item, 0)
  {
    forall i | 0 <= i < total
      ensures var g := ShuffledIndex(i, total, item);
              after[i] == if 0 <= g < |done + piece| then (done + piece)[g] else before[i]
    {
      assert after[i] == after[i] && mid[i] == mid[i];
    }
  }

  lemma ScatteredAll(before: Bytes, after: Bytes, stream: Bytes, item: int)
    requires 0 < item && |stream| <= |before|
    requires Scattered(before, after, stream, |stream|, item, 0)
    ensures after[..|stream|] == Unshuffled(stream, item)
    ensures after[|stream|..] == before[|stream|..]
  {
    forall i | 0 <= i < |stream|
      ensures after[i] == Unshuffled(stream, item)[i]
    {
      assert after[i] == after[i];
    }
  }

  /** What the pieces decoded so far have done to the destination. */
  ghost predicate Placed(plan: CompressionPlan, before: Bytes, now: Bytes, done: Bytes, size: int)
    requires plan.itemSize > 0 && |done| <= size <= |before|
  {
    if plan.byteShuffled then Scattered(before, now, done, size, plan.itemSize, 0)
    else now == done + before[|done|..]
  }

  /** The destination span is the first `size` bytes of `destination`. */
  method DecodeCompressedBlock(
    codec: Codec, serialized: Bytes, plan: CompressionPlan, destination: array<Byte>, size: U64) returns (r: Result<U64>)
    requires |serialized| <= MAX_U64 && Conserves(plan, |serialized|) && plan.itemSize > 0
    requires plan.uncompressedSize == size <= destination.Length
    modifies destination
    ensures var stream := DecodedStream(codec, serialized, 0, plan.subblocks);
            if stream.Ok? then
              && r == Ok(size)
              && destination[..size] == Restored(plan, stream.value)
            else r == Err(stream.error)
    ensures forall k | size <= k < destination.Length :: destination[k] == old(destination[k])
  {
    hide DecodedStream, DecompressSubblock, Restored, Placed, PrependBytes, TotalCompressed, TotalUncompressed;
    ghost var before := destination[..];
    ghost var whole := DecodedStream(codec, serialized, 0, plan.subblocks);
    ghost var done: Bytes := [];
    ghost var unread := plan.subblocks;
    var inputOffset: U64, outputOffset: U64 := 0, 0;
    var i := 0;
    PrependBytesTwice([], [], whole);
    PlacedNothing(plan, before, size);
    while i < |plan.subblocks|
      invariant 0 <= i <= |plan.subblocks| && unread == plan.subblocks[i..]
      invariant inputOffset + TotalCompressed(unread) == |serialized|
      invariant outputOffset == |done| && |done| + TotalUncompressed(unread) == size
      invariant whole == PrependBytes(done, DecodedStream(codec, serialized, inputOffset, unread))
      invariant Placed(plan, before, destination[..], done, size)
    {
      var sub := plan.subblocks[i];
      DecodingAdvance(codec, serialized, inputOffset, unread, done);
      PlacedFrame(plan, before, destination[..], done, size);
      var piece :- DecompressSubblock(codec, serialized[inputOffset..inputOffset + sub.compressed], sub.uncompressed);
      PlacePiece(plan, destination, piece, size, outputOffset, before, done);
      done := done + piece;
      unread := unread[1..];
      inputOffset := inputOffset + sub.compressed;
      outputOffset := outputOffset + sub.uncompressed;
      i := i + 1;
    }
    DecodingEnds(codec, serialized, inputOffset, done);
    PlacedAll(plan, before, destination[..], done, size);
    PlacedFrame(plan, before, destination[..], done, size);
    return Ok(outputOffset);
  }

  /** One turn of the decode loop: the next piece moves from what is still encoded to what is decoded. */
  lemma DecodingAdvance(codec: Codec, serialized: Bytes, from: int, list: seq<Subblock>, done: Bytes)
    requires list != [] && 0 <= from && from + TotalCompressed(list) <= |serialized|
    ensures var next := from + list[0].compressed;
            && next + TotalCompressed(list[1..]) == from + TotalCompressed(list)
            && TotalUncompressed(list) == list[0].uncompressed + TotalUncompressed(list[1..])
            && PrependBytes(done, DecodedStream(codec, serialized, from, list))
               == match DecompressSubblock(codec, serialized[from..next], list[0].uncompressed)
                  case Err(e) => Err(e)
                  case Ok(piece) => PrependBytes(done + piece, DecodedStream(codec, serialized, next, list[1..]))
  {
    hide DecompressSubblock;
    var next := from + list[0].compressed;
    var piece := DecompressSubblock(codec, serialized[from..next], list[0].uncompressed);
    if piece.Ok? {
      PrependBytesTwice(done, piece.value, DecodedStream(codec, serialized, next, list[1..]));
    }
  }

  lemma DecodingEnds(codec: Codec, serialized: Bytes, from: int, done: Bytes)
    requires 0 <= from <= |serialized|
    ensures TotalCompressed([]) == 0 && TotalUncompressed([]) == 0
    ensures PrependBytes(done, DecodedStream(codec, serialized, from, [])) == Ok(done)
  {
    assert done + [] == done;
  }

  lemma PlacedNothing(plan: CompressionPlan, before: Bytes, size: int)
    requires plan.itemSize > 0 && 0 <= size <= |before|
    ensures Placed(plan, before, before, [], size)
  {
  }

  lemma PlacedFrame(plan: CompressionPlan, before: Bytes, now: Bytes, done: Bytes, size: int)
    requires plan.itemSize > 0 && |done| <= size <= |before|
    requires Placed(plan, before, now, done, size)
    ensures |now| == |before| && forall k | size <= k < |now| :: now[k] == before[k]
  {
    if plan.byteShuffled {
      assert forall k | size <= k < |now| :: now[k] == now[size..][k - size] && before[k] == before[size..][k - size];
    }
  }

  lemma PlacedAll(plan: CompressionPlan, before: Bytes, after: Bytes, stream: Bytes, size: int)
    requires plan.itemSize > 0 && |stream| == size <= |before|
    requires Placed(plan, before, after, stream, size)
    ensures |after| == |before| && after[..size] == Restored(plan, stream)
  {
    if plan.byteShuffled {
      ScatteredAll(before, after, stream, plan.itemSize);
    }
  }

  method PlacePiece(
    plan: CompressionPlan, destination: array<Byte>, piece: Bytes, size: U64, outputOffset: U64,
    ghost before: Bytes, ghost done: Bytes)
    requires plan.itemSize > 0 && |piece| <= MAX_U64
    requires outputOffset == |done| && |done| + |piece| <= size <= destination.Length == |before|
    requires Placed(plan, before, destination[..], done, size)
    modifies destination
    ensures Placed(plan, before, destination[..], done + piece, size)
  {
    ghost var mid := destination[..];
    if plan.byteShuffled {
      var scattered := ScatterUnshuffled(piece, destination, size, plan.itemSize, outputOffset);
      ScatteredCompose(before, mid, destination[..], done, piece, size, plan.itemSize);
    } else {
      CopyInto(destination, outputOffset, piece);
    }
  }

  method CopyInto(destination: array<Byte>, offset: U64, piece: Bytes)
    requires offset + |piece| <= destination.Length
    modifies destination
    ensures destination[..] == old(destination[..offset]) + piece + old(destination[offset + |piece|..])
  {
    forall k | 0 <= k < |piece| {
      destination[offset + k] := piece[k];
    }
  }

  // ---------------------------------------------------------------- both sides

  predicate FitsDecoder(kind: CodecKind, list: seq<Subblock>) {
    forall p | p in list :: p.compressed <= DecoderLimit(kind) && p.uncompressed <= DecoderLimit(kind)
  }

  /** First piece and remaining pieces of a successful encoding. */
  lemma EncodingStep(codec: Codec, stream: Bytes, at: int, limit: int, room: int, budget: int)
    returns (n: int, piece: Bytes, tail: Encoding)
    requires RespectsBudget(codec) && 0 <= at < |stream| <= MAX_U64 && 0 < limit && budget <= MAX_U64
    requires EncodeFrom(codec, stream, at, limit, room, budget).Ok?
    ensures 0 < n == Min(limit, |stream| - at) && at + n <= |stream| && room > 0 && |piece| <= budget
    ensures codec.compress(stream[at..at + n], budget) == Ok(piece)
    ensures EncodeFrom(codec, stream, at + n, limit, room - 1, budget - |piece|) == Ok(tail)
    ensures var e := EncodeFrom(codec, stream, at, limit, room, budget).value;
            e.serialized == piece + tail.serialized && e.list == [Subblock(|piece|, n)] + tail.list
  {
    n := Min(limit, |stream| - at);
    piece := codec.compress(stream[at..at + n], budget).value;
    tail := EncodeFrom(codec, stream, at + n, limit, room - 1, budget - |piece|).value;
  }

  /** Every encoding accounts for all its bytes in real pieces, within the piece and byte budgets. */
  lemma {:induction false} EncodingConserves(codec: Codec, stream: Bytes, at: int, limit: int, room: int, budget: int)
    requires Lossless(codec) && 0 <= at <= |stream| <= MAX_U64 && 0 < limit && budget <= MAX_U64
    requires EncodeFrom(codec, stream, at, limit, room, budget).Ok?
    ensures var e := EncodeFrom(codec, stream, at, limit, room, budget).value;
            && TotalCompressed(e.list) == |e.serialized|
            && TotalUncompressed(e.list) == |stream| - at
            && (at < |stream| ==> e.list != [] && |e.serialized| <= budget && |e.list| <= room)
            && (forall p | p in e.list :: p.compressed > 0 && 0 < p.uncompressed <= limit)
    decreases |stream| - at
  {
    hide Lossless, RespectsBudget, EncodeFrom;
    LosslessAt(codec, [], 0);
    if at < |stream| {
      var n, piece, tail := EncodingStep(codec, stream, at, limit, room, budget);
      LosslessAt(codec, stream[at..at + n], budget);
      EncodingConserves(codec, stream, at + n, limit, room - 1, budget - |piece|);
      assert ([Subblock(|piece|, n)] + tail.list)[1..] == tail.list;
      if at + n == |stream| {
        EncodingEnds(codec, stream, limit, room - 1, budget - |piece|);
      }
    } else {
      EncodingEnds(codec, stream, limit, room, budget);
    }
  }

  lemma EncodingEnds(codec: Codec, stream: Bytes, limit: int, room: int, budget: int)
    requires RespectsBudget(codec) && |stream| <= MAX_U64 && 0 < limit && budget <= MAX_U64
    ensures EncodeFrom(codec, stream, |stream|, limit, room, budget) == Ok(Encoding([], []))
  {
  }

  lemma DecodingStep(codec: Codec, front: Bytes, piece: Bytes, tail: Bytes, sub: Subblock, list: seq<Subblock>)
    requires sub.compressed == |piece| && TotalCompressed(list) == |tail|
    ensures TotalCompressed([sub] + list) == |piece + tail|
    ensures DecodedStream(codec, front + (piece + tail), |front|, [sub] + list)
         == match DecompressSubblock(codec, piece, sub.uncompressed)
            case Err(e) => Err(e)
            case Ok(output) => PrependBytes(output, DecodedStream(codec, front + piece + tail, |front + piece|, list))
  {
    hide DecompressSubblock;
    var serialized := front + (piece + tail);
    assert ([sub] + list)[1..] == list;
    assert serialized == front + piece + tail;
    assert serialized[|front|..|front| + |piece|] == piece;
  }

  /** Decoding the pieces restores the stream they were cut from, unless the reader's codec call refuses a piece's size. */
  lemma {:induction false} PiecesRoundTrip(codec: Codec, stream: Bytes, at: int, limit: int, room: int, budget: int, front: Bytes)
    requires Lossless(codec) && 0 <= at <= |stream| <= MAX_U64 && 0 < limit && budget <= MAX_U64
    requires EncodeFrom(codec, stream, at, limit, room, budget).Ok?
    ensures var e := EncodeFrom(codec, stream, at, limit, room, budget).value;
            && TotalCompressed(e.list) == |e.serialized|
            && DecodedStream(codec, front + e.serialized, |front|, e.list)
               == if FitsDecoder(codec.kind, e.list) then Ok(stream[at..]) else Err(ResourceLimit)
    decreases |stream| - at
  {
    hide Lossless, RespectsBudget, FitsDecoder, DecoderLimit, DecompressSubblock, EncodeFrom;
    LosslessAt(codec, [], 0);
    EncodingConserves(codec, stream, at, limit, room, budget);
    if at < |stream| {
      var n, piece, tail := EncodingStep(codec, stream, at, limit, room, budget);
      var sub := Subblock(|piece|, n);
      EncodingConserves(codec, stream, at + n, limit, room - 1, budget - |piece|);
      PiecesRoundTrip(codec, stream, at + n, limit, room - 1, budget - |piece|, front + piece);
      hide DecodedStream;
      DecodingStep(codec, front, piece, tail.serialized, sub, tail.list);
      PieceRoundTrip(codec, stream[at..at + n], budget);
      FitsFirst(codec.kind, sub, tail.list);
      assert stream[at..] == stream[at..at + n] + stream[at + n..];
    } else {
      EncodingEnds(codec, stream, limit, room, budget);
      FitsNothing(codec.kind);
      assert stream[at..] == [];
    }
  }

  lemma PieceRoundTrip(codec: Codec, input: Bytes, budget: int)
    requires Lossless(codec) && codec.compress(input, budget).Ok?
    ensures var piece := codec.compress(input, budget).value;
            DecompressSubblock(codec, piece, |input|)
            == if |piece| <= DecoderLimit(codec.kind) && |input| <= DecoderLimit(codec.kind) then Ok(input) else Err(ResourceLimit)
  {
  }

  lemma FitsNothing(kind: CodecKind)
    ensures FitsDecoder(kind, [])
  {
  }

  lemma FitsFirst(kind: CodecKind, sub: Subblock, list: seq<Subblock>)
    ensures FitsDecoder(kind, [sub] + list)
       <==> sub.compressed <= DecoderLimit(kind) && sub.uncompressed <= DecoderLimit(kind) && FitsDecoder(kind, list)
  {
    assert sub in [sub] + list;
    assert forall p | p in list :: p in [sub] + list;
  }

  /** The bytes that a serialized block stands for under an accepted plan. */
  function DecodeBlock(codec: Codec, plan: CompressionPlan, serialized: Bytes): (r: Result<Bytes>)
    requires codec.kind == plan.kind
    requires |serialized| <= MAX_U64 && (plan.kind != NoCodec ==> Conserves(plan, |serialized|) && plan.itemSize > 0)
    requires plan.kind == NoCodec ==> plan.uncompressedSize == |serialized|
    ensures r.Ok? ==> |r.value| == plan.uncompressedSize
  {
    if plan.kind == NoCodec then Ok(serialized)
    else
      var stream := DecodedStream(codec, serialized, 0, plan.subblocks);
      if stream.Err? then Err(stream.error) else Ok(Restored(plan, stream.value))
  }

  /** The reader picks the library by the codec that the descriptor names. */
  type Registry = CodecKind -> Codec

  /** What the reader delivers for a block with these attribute texts and serialized bytes. */
  function ReadBack(
    registry: Registry, compression: string, subblocks: string, serialized: Bytes, expected: Option<U64>, limits: PlanLimits, item: U64
  ): Result<Bytes>
    requires |serialized| <= MAX_U64 && forall kind :: registry(kind).kind == kind
  {
    var plan := PlanOf(compression, subblocks, |serialized|, expected, limits, item);
    AcceptedPlansAreConsistent(compression, subblocks, |serialized|, expected, limits, item);
    if plan.Err? then Err(plan.error) else DecodeBlock(registry(plan.value.kind), plan.value, serialized)
  }

  /** The reader's own limits, as far as they concern a block the writer prepared. */
  predicate ReaderAdmits(kind: CodecKind, size: int, serializedSize: int, list: seq<Subblock>, limits: PlanLimits) {
    && serializedSize <= limits.maxSerialized
    && size <= limits.maxDecoded
    && (kind != NoCodec ==>
          && size <= serializedSize * limits.maxRatio
          && (|list| > 1 ==> |list| <= limits.maxSubblocks)
          && FitsDecoder(kind, list))
  }

  /**
   A prepared block read back with its own texts yields the caller's bytes exactly when the
   reader's limits and its codec calls admit the pieces, and a limit error otherwise; which blocks
   those are is settled in `Readability`. Piece boundaries need not respect items,
   and a trailing partial item is allowed.
   */
  lemma BlockRoundTrip(
    registry: Registry, kind: CodecKind, bytes: Bytes, item: U64, shuffle: bool, options: PrepareOptions,
    digest: Bytes -> string, limits: PlanLimits)
    requires forall k :: registry(k).kind == k
    requires RespectsBudget(registry(kind)) && (kind != NoCodec ==> Lossless(registry(kind)))
    requires 0 < |bytes| <= MAX_U64
    requires PreparedOf(registry(kind), bytes, item, shuffle, options, digest).Ok?
    ensures var block := PreparedOf(registry(kind), bytes, item, shuffle, options, digest).value;
            var list := if kind == NoCodec then [] else EncodingOf(registry(kind), bytes, item, shuffle, options).value.list;
            var emitted := EmittedBytes(block, bytes);
            && 0 < |emitted| == block.serializedSize
            && ReadBack(registry, block.compression, block.subblocks, emitted, Some(|bytes|), limits, item)
               == if ReaderAdmits(kind, |bytes|, block.serializedSize, list, limits) then Ok(bytes) else Err(ResourceLimit)
  {
    var codec := registry(kind);
    if kind != NoCodec {
      var block := PreparedOf(codec, bytes, item, shuffle, options, digest).value;
      var e := EncodingOf(codec, bytes, item, shuffle, options).value;
      var plan := PlanFor(codec, bytes, item, shuffle, e.list);
      EncodedBlockFacts(codec, bytes, item, shuffle, options);
      hide EncodingOf, DecodedStream, PrintCompression, PrintSubblocks, Restored;
      DescriptorRoundTrip(plan, block.serializedSize, Some(|bytes|), limits, item);
      TokensRoundTrip(plan);
    }
  }

  lemma EncodedBlockFacts(codec: Codec, bytes: Bytes, item: U64, shuffle: bool, options: PrepareOptions)
    requires Lossless(codec) && 0 < |bytes| <= MAX_U64
    requires EncodingOf(codec, bytes, item, shuffle, options).Ok?
    ensures var e := EncodingOf(codec, bytes, item, shuffle, options).value;
            var plan := PlanFor(codec, bytes, item, shuffle, e.list);
            && 0 < |e.serialized| <= MAX_U64
            && Faithful(plan, |e.serialized|, Some(|bytes|), item)
            && DecodedStream(codec, e.serialized, 0, e.list)
               == (if FitsDecoder(codec.kind, e.list) then Ok(StreamOf(bytes, item, shuffle)) else Err(ResourceLimit))
            && Restored(plan, StreamOf(bytes, item, shuffle)) == bytes
  {
    var e := EncodingOf(codec, bytes, item, shuffle, options).value;
    var stream := StreamOf(bytes, item, shuffle);
    var limit := ChunkLimit(codec.kind, options.subblockBytes);
    var budget := Min(options.maxSerialized, options.maxCumulative);
    EncodingConserves(codec, stream, 0, limit, options.maxSubblocks, budget);
    TotalIsPositive(e.list);
    PiecesRoundTrip(codec, stream, 0, limit, options.maxSubblocks, budget, []);
    assert [] + e.serialized == e.serialized && stream[0..] == stream;
    RoundTrip(bytes, item);
  }

  lemma TotalIsPositive(list: seq<Subblock>)
    requires list != [] && forall p | p in list :: p.compressed > 0
    ensures TotalCompressed(list) > 0
  {
    assert list[0] in list;
  }
}
