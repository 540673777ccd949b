/** When a block can be prepared, and into which pieces it is cut: settled by sizes that the caller knows beforehand. */
module Preparation {
  import opened Base
  import opened ByteShuffle
  import opened Descriptors
  import opened BlockPipeline
  import opened Readability
  import Mul

  /** A codec that succeeds whenever it is given the room it may need. */
  ghost predicate Ample(codec: Codec, bound: Bound) {
    forall x: Bytes, budget: int :: x != [] && bound(|x|) <= budget ==> codec.compress(x, budget).Ok?
  }

  /** The widest piece that the options and the library allow: LZ4 takes at most 0x7E00_0000 bytes at a time. */
  function PieceWidth(kind: CodecKind, subblockBytes: U64): U64 {
    match kind
    case Lz4 => if subblockBytes > 0x7E00_0000 then 0x7E00_0000 else subblockBytes
    case Lz4hc => if subblockBytes > 0x7E00_0000 then 0x7E00_0000 else subblockBytes
    case _ => subblockBytes
  }

  /** This many pieces of this width, and no fewer, hold a block of this size. */
  predicate Holds(pieces: nat, width: int, size: int) {
    pieces * width >= size && (pieces > 0 ==> (pieces - 1) * width < size)
  }

  /** All pieces but the last have the full width, and the last has the rest. */
  predicate CutEvenly(list: seq<Subblock>, width: int, size: int) {
    forall j | 0 <= j < |list| :: list[j].uncompressed as int == if j < |list| - 1 then width else size - (|list| - 1) * width
  }

  /** What the caller asks for makes no sense: pieces or items without bytes, or several pieces and no place for a spool. */
  predicate Senseless(kind: CodecKind, size: int, item: U64, options: PrepareOptions) {
    var width := PieceWidth(kind, options.subblockBytes);
    width == 0 || item == 0 || (size > width && !options.hasScratchStem)
  }

  lemma OneFewer(pieces: nat, width: int, size: int)
    requires 0 < width && Holds(pieces, width, size)
    ensures size <= 0 ==> pieces == 0
    ensures 0 < size ==> pieces > 0
    ensures pieces > 0 ==> Holds(pieces - 1, width, size - Min(width, size))
    ensures width < size ==> pieces > 1
  {
    assert pieces > 0 ==> (pieces - 1) * width == pieces * width - width;
    assert pieces > 1 ==> (pieces - 2) * width == (pieces - 1) * width - width;
    if pieces > 0 && size <= 0 {
      Mul.Monotone(0, pieces - 1, width);
    }
    if pieces > 1 {
      Mul.Monotone(1, pieces - 1, width);
    }
  }

  /** The number of pieces. */
  function PieceCount(size: nat, width: int): (pieces: nat)
    requires 0 < width
    ensures Holds(pieces, width, size)
  {
    var q := size / width;
    Mul.Split(size, width);
    assert (q + 1) * width == q * width + width;
    assert (q - 1) * width == q * width - width;
    if size % width == 0 then q else q + 1
  }

  lemma CutMore(first: Subblock, rest: seq<Subblock>, width: int, size: int)
    requires 0 < width && first.uncompressed as int == Min(width, size) && CutEvenly(rest, width, size - Min(width, size))
    requires (rest == [] <==> size <= width)
    ensures CutEvenly([first] + rest, width, size)
  {
    var list := [first] + rest;
    assert (|list| - 1) * width == (|rest| - 1) * width + width;
    forall j | 0 <= j < |list|
      ensures list[j].uncompressed as int == if j < |list| - 1 then width else size - (|list| - 1) * width
    {
      if j > 0 {
        assert list[j] == rest[j - 1];
      }
    }
  }

  lemma AmpleAt(codec: Codec, bound: Bound, x: Bytes, budget: int, width: int)
    requires Ample(codec, bound) && Bounded(codec, bound) && x != [] && |x| <= width && bound(width) <= budget
    ensures codec.compress(x, budget).Ok? && |codec.compress(x, budget).value| <= bound(width)
  {
    assert bound(|x|) <= bound(width);
  }

  lemma BoundIsPositive(codec: Codec, bound: Bound, width: int)
    requires Bounded(codec, bound) && 0 <= width
    ensures width < bound(width)
  {
  }

  /** The encoding of `size` bytes in this many pieces, where there is room for `room` of them. */
  predicate Outcome(r: Result<Encoding>, pieces: nat, room: int, width: int, size: int) {
    && (r.Ok? <==> pieces <= room) && (r.Err? ==> r.error == ResourceLimit)
    && (r.Ok? ==> |r.value.list| == pieces && CutEvenly(r.value.list, width, size))
  }

  /** One more piece in front. */
  function Grown(piece: Bytes, n: U64, rest: Result<Encoding>): Result<Encoding>
    requires |piece| <= MAX_U64
  {
    if rest.Err? then rest else Ok(Encoding(piece + rest.value.serialized, [Subblock(|piece|, n)] + rest.value.list))
  }

  lemma OutcomeGrows(piece: Bytes, n: U64, rest: Result<Encoding>, pieces: nat, room: int, width: int, size: int)
    requires |piece| <= MAX_U64 && 0 < width && 0 < size && n as int == Min(width, size) && 0 < room && Holds(pieces, width, size) && 0 < pieces
    requires Outcome(rest, pieces - 1, room - 1, width, size - n)
    ensures Outcome(Grown(piece, n, rest), pieces, room, width, size)
  {
    OneFewer(pieces, width, size);
    OneFewer(pieces - 1, width, size - n);
    hide Holds, CutEvenly;
    if rest.Ok? {
      CutMore(Subblock(|piece|, n), rest.value.list, width, size);
    }
  }

  /** With room for every piece, encoding succeeds exactly if there are not too many of them. */
  lemma {:induction false} EncodesExactly(
    codec: Codec, bound: Bound, stream: Bytes, at: int, limit: int, room: int, budget: int, pieces: nat, width: int)
    requires Lossless(codec) && Bounded(codec, bound) && Ample(codec, bound)
    requires 0 <= at <= |stream| <= MAX_U64 && 0 < limit && Holds(pieces, limit, |stream| - at) && 0 <= room
    requires 0 <= Min(limit, |stream| - at) <= width && Total(pieces, bound(width)) <= budget <= MAX_U64
    ensures Outcome(EncodeFrom(codec, stream, at, limit, room, budget), pieces, room, limit, |stream| - at)
    decreases |stream| - at
  {
    LosslessAt(codec, [], 0);
    OneFewer(pieces, limit, |stream| - at);
    BoundIsPositive(codec, bound, width);
    hide Lossless, Bounded, Ample, RespectsBudget, Holds, CutEvenly, EncodeFrom, Total, Outcome, Grown, Min;
    if at == |stream| {
      EncodingEnds(codec, stream, limit, room, budget);
      NothingToCut(room, limit);
    } else {
      var n, piece := FirstPieceFits(codec, bound, stream, at, limit, room, budget, pieces, width);
      if room == 0 {
        NoRoom(pieces, limit, |stream| - at);
      } else {
        EncodesExactly(codec, bound, stream, at + n, limit, room - 1, budget - |piece|, pieces - 1, width);
        OutcomeGrows(piece, n, EncodeFrom(codec, stream, at + n, limit, room - 1, budget - |piece|), pieces, room, limit, |stream| - at);
      }
    }
  }

  lemma FirstPieceFits(
    codec: Codec, bound: Bound, stream: Bytes, at: int, limit: int, room: int, budget: int, pieces: nat, width: int)
    returns (n: U64, piece: Bytes)
    requires RespectsBudget(codec) && Bounded(codec, bound) && Ample(codec, bound)
    requires 0 <= at < |stream| <= MAX_U64 && 0 < limit && Holds(pieces, limit, |stream| - at)
    requires Min(limit, |stream| - at) <= width && Total(pieces, bound(width)) <= budget <= MAX_U64
    ensures pieces > 0 && 0 < n && n as int == Min(limit, |stream| - at) && |piece| <= MAX_U64
    ensures Holds(pieces - 1, limit, |stream| - (at + n)) && Min(limit, |stream| - (at + n)) <= width
    ensures Total(pieces - 1, bound(width)) <= budget - |piece|
    ensures EncodeFrom(codec, stream, at, limit, room, budget)
         == if room <= 0 then Err(ResourceLimit)
            else Grown(piece, n, EncodeFrom(codec, stream, at + n, limit, room - 1, budget - |piece|))
  {
    OneFewer(pieces, limit, |stream| - at);
    hide Bounded, Ample, RespectsBudget, Holds, EncodeFrom, Total, Grown;
    BoundIsPositive(codec, bound, width);
    n := Min(limit, |stream| - at);
    RoomForOne(pieces, bound(width), budget);
    AmpleAt(codec, bound, stream[at..at + n], budget, width);
    piece := codec.compress(stream[at..at + n], budget).value;
    FirstEncoded(codec, stream, at, limit, room, budget);
  }

  lemma NoRoom(pieces: nat, width: int, size: int)
    requires pieces > 0
    ensures Outcome(Err(ResourceLimit), pieces, 0, width, size)
  {
  }

  lemma NothingToCut(room: int, width: int)
    requires 0 <= room
    ensures Outcome(Ok(Encoding([], [])), 0, room, width, 0)
  {
  }

  /** What this many pieces take at most. */
  function Total(pieces: nat, most: int): int {
    pieces * most
  }

  lemma RoomForOne(pieces: nat, most: int, budget: int)
    requires 0 < pieces && 0 < most && Total(pieces, most) <= budget
    ensures most <= budget && Total(pieces - 1, most) <= budget - most
  {
    assert pieces * most == (pieces - 1) * most + most;
    Mul.Monotone(0, pieces - 1, most);
  }

  lemma FirstEncoded(codec: Codec, stream: Bytes, at: int, limit: int, room: int, budget: int)
    requires RespectsBudget(codec) && 0 <= at < |stream| <= MAX_U64 && 0 < limit && budget <= MAX_U64 && 0 < budget
    requires codec.compress(stream[at..at + Min(limit, |stream| - at)], budget).Ok?
    ensures var n := Min(limit, |stream| - at);
            var piece := codec.compress(stream[at..at + n], budget).value;
            EncodeFrom(codec, stream, at, limit, room, budget)
            == if room <= 0 then Err(ResourceLimit)
               else Grown(piece, n, EncodeFrom(codec, stream, at + n, limit, room - 1, budget - |piece|))
  {
  }

  // ---------------------------------------------------------------- the result

  /** The pieces that the texts of a prepared block describe. */
  ghost predicate Describes(block: PreparedBlock, kind: CodecKind, size: int, item: U64, shuffle: bool, list: seq<Subblock>)
    requires 0 <= size <= MAX_U64
  {
    && block.compression == PrintCompression(CompressionPlan(kind, shuffle, size, if shuffle then item else 1, list))
    && block.subblocks == PrintSubblocks(list)
  }

  /**
   A compressed block. The caller's mistakes are refused as such, and nothing else is; otherwise, with a
   codec and budgets that leave room for every piece, the block is prepared exactly if the pieces of the
   full width, and one for the rest, are not too many. It goes to a spool exactly if one piece cannot hold it.
   */
  lemma PreparationIsExact(
    codec: Codec, bound: Bound, bytes: Bytes, item: U64, shuffle: bool, options: PrepareOptions, digest: Bytes -> string)
    requires Lossless(codec) && Bounded(codec, bound) && Ample(codec, bound) && |bytes| <= MAX_U64
    requires var width := PieceWidth(codec.kind, options.subblockBytes);
             width > 0 ==>
               Total(PieceCount(|bytes|, width), bound(Min(width, |bytes|))) <= Min(options.maxSerialized, options.maxCumulative)
    ensures RespectsBudget(codec)
    ensures var width := PieceWidth(codec.kind, options.subblockBytes);
            var r := PreparedOf(codec, bytes, item, shuffle, options, digest);
            && (r == Err(InvalidArgument) <==> Senseless(codec.kind, |bytes|, item, options))
            && (r.Ok? <==> !Senseless(codec.kind, |bytes|, item, options) && PieceCount(|bytes|, width) <= options.maxSubblocks)
            && (r.Err? ==> r.error == InvalidArgument || r.error == ResourceLimit)
            && (r.Ok? ==>
                  && (r.value.spooled <==> |bytes| > width)
                  && exists list :: |list| == PieceCount(|bytes|, width) && CutEvenly(list, width, |bytes|)
                                 && Describes(r.value, codec.kind, |bytes|, item, shuffle, list))
  {
    var kind, width := codec.kind, PieceWidth(codec.kind, options.subblockBytes);
    LosslessAt(codec, [], 0);
    EncodedDecides(codec, bytes, item, shuffle, options, digest);
    hide Lossless, Bounded, Ample, RespectsBudget, EncodeFrom, PreparedOf, StreamOf, PieceCount, CutEvenly, Holds, Total, Describes;
    if !Senseless(kind, |bytes|, item, options) {
      var stream, budget := StreamOf(bytes, item, shuffle), Min(options.maxSerialized, options.maxCumulative);
      EncodesExactly(codec, bound, stream, 0, width, options.maxSubblocks, budget, PieceCount(|bytes|, width), Min(width, |bytes|));
    }
  }

  /** Encoding decides, once the request makes sense. */
  lemma EncodedDecides(codec: Codec, bytes: Bytes, item: U64, shuffle: bool, options: PrepareOptions, digest: Bytes -> string)
    requires Lossless(codec) && RespectsBudget(codec) && |bytes| <= MAX_U64
    ensures var width := PieceWidth(codec.kind, options.subblockBytes);
            var r := PreparedOf(codec, bytes, item, shuffle, options, digest);
            if Senseless(codec.kind, |bytes|, item, options) then r == Err(InvalidArgument)
            else
              var e := EncodeFrom(codec, StreamOf(bytes, item, shuffle), 0, width, options.maxSubblocks,
                                  Min(options.maxSerialized, options.maxCumulative));
              if e.Err? then r == Err(e.error)
              else r.Ok? && (r.value.spooled <==> |bytes| > width)
                   && Describes(r.value, codec.kind, |bytes|, item, shuffle, e.value.list)
  {
    LosslessAt(codec, [], 0);
    hide Lossless, RespectsBudget, EncodeFrom, StreamOf;
    var width := PieceWidth(codec.kind, options.subblockBytes);
    assert ChunkLimit(codec.kind, options.subblockBytes) == width;
    if !Senseless(codec.kind, |bytes|, item, options) {
      var stream, budget := StreamOf(bytes, item, shuffle), Min(options.maxSerialized, options.maxCumulative);
      if EncodeFrom(codec, stream, 0, width, options.maxSubblocks, budget).Ok? {
        SerializedFits(codec, stream, width, options.maxSubblocks, budget);
      }
    }
  }

  lemma SerializedFits(codec: Codec, stream: Bytes, limit: int, room: int, budget: int)
    requires Lossless(codec) && RespectsBudget(codec) && |stream| <= MAX_U64 && 0 < limit && 0 <= budget <= MAX_U64
    requires EncodeFrom(codec, stream, 0, limit, room, budget).Ok?
    ensures |EncodeFrom(codec, stream, 0, limit, room, budget).value.serialized| <= budget
  {
    EncodingConserves(codec, stream, 0, limit, room, budget);
    if stream == [] {
      EncodingEnds(codec, stream, limit, room, budget);
    }
  }

  /** A block that is stored as it is needs no more than its bytes. */
  lemma PlainIsExact(codec: Codec, bytes: Bytes, item: U64, shuffle: bool, options: PrepareOptions, digest: Bytes -> string)
    requires codec.kind == NoCodec && RespectsBudget(codec) && |bytes| <= MAX_U64
    ensures var r := PreparedOf(codec, bytes, item, shuffle, options, digest);
            && (r.Ok? <==> |bytes| <= options.maxSerialized && |bytes| <= options.maxCumulative)
            && (r.Err? ==> r.error == ResourceLimit)
            && (r.Ok? ==> EmittedBytes(r.value, bytes) == bytes && r.value.serializedSize == |bytes| && !r.value.spooled
                          && r.value.compression == "" && r.value.subblocks == "")
  {
  }

  // ---------------------------------------------------------------- a block of three pieces

  const Megabyte: int := 0x10_0000

  function SpoolOptions(hasScratchStem: bool): PrepareOptions {
    PrepareOptions(4 * Megabyte, 3, MAX_U64, MAX_U64, hasScratchStem)
  }

  lemma PaddingIsAmple(kind: CodecKind, bound: Bound)
    requires ProperBound(bound)
    ensures Ample(PaddingCodec(kind, bound), bound)
  {
  }

  const PlusOne: Bound := (n: int) => n + 1

  lemma ThreeCut(list: seq<Subblock>)
    requires |list| == 3 && CutEvenly(list, 4 * Megabyte, 10 * Megabyte)
    ensures list[0].uncompressed == list[1].uncompressed == 4 * Megabyte && list[2].uncompressed == 2 * Megabyte
  {
  }

  lemma SpoolFacts(kind: CodecKind, stem: bool)
    requires kind == Zstd
    ensures PieceWidth(kind, SpoolOptions(stem).subblockBytes) == 4 * Megabyte && PieceCount(10 * Megabyte, 4 * Megabyte) == 3
    ensures Total(3, PlusOne(4 * Megabyte)) <= Min(SpoolOptions(stem).maxSerialized, SpoolOptions(stem).maxCumulative)
    ensures Senseless(kind, 10 * Megabyte, 1, SpoolOptions(stem)) <==> !stem
  {
  }

  /** Ten mebibytes in pieces of four: three pieces in a spool, and refused without a place for it. */
  lemma ThreePieces(bytes: Bytes, shuffle: bool, stem: bool, digest: Bytes -> string)
    requires |bytes| == 10 * Megabyte
    ensures RespectsBudget(PaddingCodec(Zstd, PlusOne))
    ensures var r := PreparedOf(PaddingCodec(Zstd, PlusOne), bytes, 1, shuffle, SpoolOptions(stem), digest);
            if stem then
              && r.Ok? && r.value.spooled
              && exists list: seq<Subblock> ::
                   && |list| == 3 && Describes(r.value, Zstd, 10 * Megabyte, 1, shuffle, list)
                   && list[0].uncompressed == list[1].uncompressed == 4 * Megabyte && list[2].uncompressed == 2 * Megabyte
            else r == Err(InvalidArgument)
  {
    var codec, options := PaddingCodec(Zstd, PlusOne), SpoolOptions(stem);
    PaddingIsLossless(Zstd, PlusOne);
    PaddingIsAmple(Zstd, PlusOne);
    SpoolFacts(Zstd, stem);
    assert codec.kind == Zstd && Min(4 * Megabyte, |bytes|) == 4 * Megabyte;
    hide Lossless, Bounded, Ample, RespectsBudget, PreparedOf, PaddingCodec, Describes, PieceCount, Total, CutEvenly, Senseless, SpoolOptions;
    PreparationIsExact(codec, PlusOne, bytes, 1, shuffle, options, digest);
    if stem {
      var block := PreparedOf(codec, bytes, 1, shuffle, options, digest).value;
      var list :| |list| == 3 && CutEvenly(list, 4 * Megabyte, 10 * Megabyte) && Describes(block, Zstd, 10 * Megabyte, 1, shuffle, list);
      ThreeCut(list);
    }
  }
}
