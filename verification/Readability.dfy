/**
 Which blocks the writer can make that no reader can decode. The writer's caller chooses the piece
 width and the reader's codec call limits the sizes of a piece, before and after compression, so
 the answer depends on the width and on how far the codec can expand it.
 */
module Readability {
  import opened Base
  import opened ByteShuffle
  import opened Descriptors
  import opened BlockPipeline

  /** How far a codec may expand an input of this size; the writer gives it no more room than that. */
  type Bound = int -> int

  ghost predicate ProperBound(bound: Bound) {
    && (forall n: int :: 0 <= n ==> n < bound(n))
    && forall m: int, n: int :: 0 <= m <= n ==> bound(m) <= bound(n)
  }

  ghost predicate Bounded(codec: Codec, bound: Bound) {
    && ProperBound(bound)
    && forall x: Bytes, budget: int :: codec.compress(x, budget).Ok? ==> |codec.compress(x, budget).value| <= bound(|x|)
  }

  lemma BoundedAt(codec: Codec, bound: Bound, x: Bytes, budget: int, width: int)
    requires Bounded(codec, bound) && codec.compress(x, budget).Ok? && |x| <= width
    ensures |codec.compress(x, budget).value| <= bound(width)
  {
    assert bound(|x|) <= bound(width);
  }

  /** The widest piece of this block, known before the call. */
  function Width(kind: CodecKind, size: int, options: PrepareOptions): int {
    Min(ChunkLimit(kind, options.subblockBytes), size)
  }

  /** The condition for the caller: the widest piece fits the decoder, even if it expands as far as it can. */
  predicate WidthIsSafe(kind: CodecKind, bound: Bound, size: int, options: PrepareOptions) {
    Width(kind, size, options) <= DecoderLimit(kind) && bound(Width(kind, size, options)) <= DecoderLimit(kind)
  }

  /** A reader that accepts whatever the writer's own budgets let through. */
  predicate Generous(limits: PlanLimits, size: int, options: PrepareOptions) {
    && Min(options.maxSerialized, options.maxCumulative) <= limits.maxSerialized
    && size <= limits.maxDecoded
    && size <= limits.maxRatio
    && options.maxSubblocks <= limits.maxSubblocks
  }

  /** Every piece is as wide as the first or less, and expands to the bound of that width at most. */
  lemma {:induction false} PiecesAreBounded(
    codec: Codec, bound: Bound, stream: Bytes, at: int, limit: int, room: int, budget: int, width: int)
    requires Lossless(codec) && Bounded(codec, bound)
    requires 0 <= at <= |stream| <= MAX_U64 && 0 < limit && budget <= MAX_U64 && Min(limit, |stream| - at) <= width
    requires EncodeFrom(codec, stream, at, limit, room, budget).Ok?
    ensures forall p | p in EncodeFrom(codec, stream, at, limit, room, budget).value.list ::
              p.uncompressed <= width && p.compressed <= bound(width)
    decreases |stream| - at
  {
    hide Lossless, Bounded, RespectsBudget, EncodeFrom;
    LosslessAt(codec, [], 0);
    if at < |stream| {
      var n, piece, tail := EncodingStep(codec, stream, at, limit, room, budget);
      BoundedAt(codec, bound, stream[at..at + n], budget, width);
      PiecesAreBounded(codec, bound, stream, at + n, limit, room - 1, budget - |piece|, width);
    } else {
      EncodingEnds(codec, stream, limit, room, budget);
    }
  }

  /** The first piece has the full width. */
  lemma FirstPiece(codec: Codec, bytes: Bytes, item: U64, shuffle: bool, options: PrepareOptions)
    requires Lossless(codec) && 0 < |bytes| <= MAX_U64
    requires EncodingOf(codec, bytes, item, shuffle, options).Ok?
    ensures var list := EncodingOf(codec, bytes, item, shuffle, options).value.list;
            var width := Width(codec.kind, |bytes|, options);
            && list != [] && 0 < width <= |bytes| && list[0].uncompressed as int == width
            && exists x, budget :: |x| == width && codec.compress(x, budget).Ok?
                                && |codec.compress(x, budget).value| == list[0].compressed
  {
    hide Lossless, RespectsBudget, EncodeFrom;
    LosslessAt(codec, [], 0);
    var stream := StreamOf(bytes, item, shuffle);
    var budget := Min(options.maxSerialized, options.maxCumulative);
    var n, piece, tail := EncodingStep(codec, stream, 0, ChunkLimit(codec.kind, options.subblockBytes), options.maxSubblocks, budget);
    assert |stream[0..n]| == n;
  }

  /** Every block of a safe width is read back, whatever its bytes, by a reader as generous as the writer. */
  lemma SafeWidthIsReadable(
    registry: Registry, kind: CodecKind, bound: Bound, bytes: Bytes, item: U64, shuffle: bool, options: PrepareOptions,
    digest: Bytes -> string, limits: PlanLimits)
    requires (forall k :: registry(k).kind == k) && Lossless(registry(kind)) && Bounded(registry(kind), bound)
    requires 0 < |bytes| <= MAX_U64 && WidthIsSafe(kind, bound, |bytes|, options) && Generous(limits, |bytes|, options)
    requires PreparedOf(registry(kind), bytes, item, shuffle, options, digest).Ok?
    ensures var block := PreparedOf(registry(kind), bytes, item, shuffle, options, digest).value;
            ReadBack(registry, block.compression, block.subblocks, EmittedBytes(block, bytes), Some(|bytes|), limits, item) == Ok(bytes)
  {
    var codec := registry(kind);
    var stream := StreamOf(bytes, item, shuffle);
    var limit, budget := ChunkLimit(kind, options.subblockBytes), Min(options.maxSerialized, options.maxCumulative);
    BlockRoundTrip(registry, kind, bytes, item, shuffle, options, digest, limits);
    LosslessAt(codec, [], 0);
    EncodingConserves(codec, stream, 0, limit, options.maxSubblocks, budget);
    PiecesAreBounded(codec, bound, stream, 0, limit, options.maxSubblocks, budget, Width(kind, |bytes|, options));
    hide ReadBack, Lossless, Bounded, EncodeFrom, StreamOf, TotalCompressed, TotalUncompressed;
    var e := EncodingOf(codec, bytes, item, shuffle, options).value;
    Mul.Monotone(1, |e.serialized|, limits.maxRatio);
  }

  // ---------------------------------------------------------------- blocks that cannot be read

  /** A piece that the decoder does not take, before or after compression, spoils the block for every reader. */
  lemma UnfitPieceIsRefused(
    registry: Registry, kind: CodecKind, bytes: Bytes, item: U64, shuffle: bool, options: PrepareOptions, digest: Bytes -> string,
    limits: PlanLimits)
    requires (forall k :: registry(k).kind == k) && Lossless(registry(kind)) && 0 < |bytes| <= MAX_U64
    requires PreparedOf(registry(kind), bytes, item, shuffle, options, digest).Ok?
    requires !FitsDecoder(kind, EncodingOf(registry(kind), bytes, item, shuffle, options).value.list)
    ensures var block := PreparedOf(registry(kind), bytes, item, shuffle, options, digest).value;
            ReadBack(registry, block.compression, block.subblocks, EmittedBytes(block, bytes), Some(|bytes|), limits, item)
            == Err(ResourceLimit)
  {
    BlockRoundTrip(registry, kind, bytes, item, shuffle, options, digest, limits);
    hide ReadBack, Lossless, EncodingOf, FitsDecoder;
  }

  /** A first piece wider than the decoder's sizes is never read, however well it compresses. */
  lemma WideInputIsRefused(
    registry: Registry, kind: CodecKind, bytes: Bytes, item: U64, shuffle: bool, options: PrepareOptions, digest: Bytes -> string,
    limits: PlanLimits)
    requires (forall k :: registry(k).kind == k) && Lossless(registry(kind)) && 0 < |bytes| <= MAX_U64
    requires PreparedOf(registry(kind), bytes, item, shuffle, options, digest).Ok?
    requires Width(kind, |bytes|, options) > DecoderLimit(kind)
    ensures var block := PreparedOf(registry(kind), bytes, item, shuffle, options, digest).value;
            ReadBack(registry, block.compression, block.subblocks, EmittedBytes(block, bytes), Some(|bytes|), limits, item)
            == Err(ResourceLimit)
  {
    var list := EncodingOf(registry(kind), bytes, item, shuffle, options).value.list;
    FirstPiece(registry(kind), bytes, item, shuffle, options);
    assert list[0] in list;
    hide ReadBack, Lossless, EncodingOf;
    UnfitPieceIsRefused(registry, kind, bytes, item, shuffle, options, digest, limits);
  }

  /** Nor is a piece that grows beyond the decoder's sizes by compression, whatever lossless codec made it. */
  lemma WideOutputIsRefused(
    registry: Registry, kind: CodecKind, bytes: Bytes, item: U64, shuffle: bool, options: PrepareOptions, digest: Bytes -> string,
    limits: PlanLimits, piece: Subblock)
    requires (forall k :: registry(k).kind == k) && Lossless(registry(kind)) && 0 < |bytes| <= MAX_U64
    requires PreparedOf(registry(kind), bytes, item, shuffle, options, digest).Ok?
    requires piece in EncodingOf(registry(kind), bytes, item, shuffle, options).value.list && piece.compressed > DecoderLimit(kind)
    ensures var block := PreparedOf(registry(kind), bytes, item, shuffle, options, digest).value;
            ReadBack(registry, block.compression, block.subblocks, EmittedBytes(block, bytes), Some(|bytes|), limits, item)
            == Err(ResourceLimit)
  {
    hide ReadBack, Lossless, EncodingOf;
    UnfitPieceIsRefused(registry, kind, bytes, item, shuffle, options, digest, limits);
  }

  /**
   A block of one piece, and any lossless codec: it is read back by a generous reader if and only if the
   piece and what it compresses to fit the decoder, and by no reader otherwise.
   */
  lemma OnePieceIsExact(
    registry: Registry, kind: CodecKind, bytes: Bytes, item: U64, shuffle: bool, options: PrepareOptions, digest: Bytes -> string,
    limits: PlanLimits)
    requires (forall k :: registry(k).kind == k) && Lossless(registry(kind)) && 0 < |bytes| <= MAX_U64
    requires |bytes| <= ChunkLimit(kind, options.subblockBytes)
    requires PreparedOf(registry(kind), bytes, item, shuffle, options, digest).Ok?
    ensures var block := PreparedOf(registry(kind), bytes, item, shuffle, options, digest).value;
            var back := ReadBack(registry, block.compression, block.subblocks, EmittedBytes(block, bytes), Some(|bytes|), limits, item);
            var piece := registry(kind).compress(StreamOf(bytes, item, shuffle), Min(options.maxSerialized, options.maxCumulative));
            && piece.Ok?
            && (if |bytes| <= DecoderLimit(kind) && |piece.value| <= DecoderLimit(kind)
                then Generous(limits, |bytes|, options) ==> back == Ok(bytes)
                else back == Err(ResourceLimit))
  {
    var codec := registry(kind);
    BlockRoundTrip(registry, kind, bytes, item, shuffle, options, digest, limits);
    OnePieceList(codec, bytes, item, shuffle, options);
    hide ReadBack, Lossless, EncodingOf, StreamOf;
    var block := PreparedOf(codec, bytes, item, shuffle, options, digest).value;
    Mul.Monotone(1, block.serializedSize, limits.maxRatio);
  }

  lemma OnePieceList(codec: Codec, bytes: Bytes, item: U64, shuffle: bool, options: PrepareOptions)
    requires Lossless(codec) && 0 < |bytes| <= MAX_U64 && |bytes| <= ChunkLimit(codec.kind, options.subblockBytes)
    requires EncodingOf(codec, bytes, item, shuffle, options).Ok?
    ensures var piece := codec.compress(StreamOf(bytes, item, shuffle), Min(options.maxSerialized, options.maxCumulative));
            var e := EncodingOf(codec, bytes, item, shuffle, options).value;
            && piece.Ok? && 0 < |piece.value| <= MAX_U64 && options.maxSubblocks > 0
            && e == Encoding(piece.value, [Subblock(|piece.value|, |bytes|)])
            && |piece.value| <= Min(options.maxSerialized, options.maxCumulative)
  {
    hide Lossless, RespectsBudget, EncodeFrom;
    LosslessAt(codec, [], 0);
    var stream := StreamOf(bytes, item, shuffle);
    var limit, budget := ChunkLimit(codec.kind, options.subblockBytes), Min(options.maxSerialized, options.maxCumulative);
    LosslessAt(codec, stream, budget);
    var n, piece, tail := EncodingStep(codec, stream, 0, limit, options.maxSubblocks, budget);
    assert stream[0..n] == stream;
    EncodingEnds(codec, stream, limit, options.maxSubblocks - 1, budget - |piece|);
    assert piece + [] == piece;
  }

  /** A codec that expands every input as far as the bound lets it. */
  function PaddingCodec(kind: CodecKind, bound: Bound): Codec {
    Codec(kind,
          (x: Bytes, budget: int) =>
            if |x| <= bound(|x|) <= budget then Ok(x + seq(bound(|x|) - |x|, _ => 0)) else Err(ResourceLimit),
          (y: Bytes, size: int) => if 0 <= size <= |y| then Ok(y[..size]) else Err(InvalidBlock))
  }

  lemma PaddingIsLossless(kind: CodecKind, bound: Bound)
    requires kind != NoCodec && ProperBound(bound)
    ensures Lossless(PaddingCodec(kind, bound)) && Bounded(PaddingCodec(kind, bound), bound)
  {
    var codec := PaddingCodec(kind, bound);
    forall x: Bytes, budget: int | codec.compress(x, budget).Ok?
      ensures var y := codec.compress(x, budget).value;
              |y| == bound(|x|) && |y| <= budget && y != [] && codec.decompress(y, |x|) == Ok(x)
    {
      var y := codec.compress(x, budget).value;
      assert y[..|x|] == x;
    }
  }

  /**
   The condition is exact for the padding codec, which uses the bound to the full: a block is read back by
   a generous reader if and only if its width is safe, and by no reader if it is not. A codec that stays
   below the bound has readable blocks of other widths too; `OnePieceIsExact` speaks of any codec.
   */
  lemma SafeWidthIsExact(
    registry: Registry, kind: CodecKind, bound: Bound, bytes: Bytes, item: U64, shuffle: bool, options: PrepareOptions,
    digest: Bytes -> string, limits: PlanLimits)
    requires (forall k :: registry(k).kind == k) && kind != NoCodec && ProperBound(bound)
    requires registry(kind) == PaddingCodec(kind, bound) && 0 < |bytes| <= MAX_U64
    requires RespectsBudget(registry(kind)) && PreparedOf(registry(kind), bytes, item, shuffle, options, digest).Ok?
    ensures var block := PreparedOf(registry(kind), bytes, item, shuffle, options, digest).value;
            var back := ReadBack(registry, block.compression, block.subblocks, EmittedBytes(block, bytes), Some(|bytes|), limits, item);
            && (WidthIsSafe(kind, bound, |bytes|, options) && Generous(limits, |bytes|, options) ==> back == Ok(bytes))
            && (!WidthIsSafe(kind, bound, |bytes|, options) ==> back == Err(ResourceLimit))
  {
    PaddingIsLossless(kind, bound);
    var list := EncodingOf(registry(kind), bytes, item, shuffle, options).value.list;
    FirstPiece(registry(kind), bytes, item, shuffle, options);
    assert list[0] in list && list[0].compressed == bound(Width(kind, |bytes|, options));
    hide ReadBack, Lossless, EncodingOf, Bounded;
    if WidthIsSafe(kind, bound, |bytes|, options) {
      if Generous(limits, |bytes|, options) {
        SafeWidthIsReadable(registry, kind, bound, bytes, item, shuffle, options, digest, limits);
      }
    } else {
      UnfitPieceIsRefused(registry, kind, bytes, item, shuffle, options, digest, limits);
    }
  }

  // ---------------------------------------------------------------- the libraries' bounds

  /** `LZ4_COMPRESSBOUND` of lz4.h, for inputs that the library takes. */
  const Lz4Bound: Bound := (n: int) => n + n / 255 + 16

  /** `compressBound` of zlib. */
  const ZlibBound: Bound := (n: int) => n + n / 4096 + n / 16384 + n / 33554432 + 13

  lemma BoundsAreProper()
    ensures ProperBound(Lz4Bound) && ProperBound(ZlibBound)
  {
  }

  /** The writer's own clamp makes every LZ4 block readable, whatever piece size the caller asks for. */
  lemma Lz4BlocksAreReadable(
    registry: Registry, kind: CodecKind, bytes: Bytes, item: U64, shuffle: bool, options: PrepareOptions, digest: Bytes -> string,
    limits: PlanLimits)
    requires kind == Lz4 || kind == Lz4hc
    requires (forall k :: registry(k).kind == k) && Lossless(registry(kind)) && Bounded(registry(kind), Lz4Bound)
    requires 0 < |bytes| <= MAX_U64 && Generous(limits, |bytes|, options)
    requires PreparedOf(registry(kind), bytes, item, shuffle, options, digest).Ok?
    ensures var block := PreparedOf(registry(kind), bytes, item, shuffle, options, digest).value;
            ReadBack(registry, block.compression, block.subblocks, EmittedBytes(block, bytes), Some(|bytes|), limits, item) == Ok(bytes)
  {
    hide ReadBack, Lossless, Bounded, PreparedOf;
    SafeWidthIsReadable(registry, kind, Lz4Bound, bytes, item, shuffle, options, digest, limits);
  }

  /** Zlib pieces up to two mebibytes below four gibibytes are always readable. */
  lemma NarrowZlibBlocksAreReadable(
    registry: Registry, bytes: Bytes, item: U64, shuffle: bool, options: PrepareOptions, digest: Bytes -> string, limits: PlanLimits)
    requires (forall k :: registry(k).kind == k) && Lossless(registry(Zlib)) && Bounded(registry(Zlib), ZlibBound)
    requires 0 < |bytes| <= MAX_U64 && Generous(limits, |bytes|, options)
    requires Min(options.subblockBytes, |bytes|) <= 0x1_0000_0000 - 0x20_0000
    requires PreparedOf(registry(Zlib), bytes, item, shuffle, options, digest).Ok?
    ensures var block := PreparedOf(registry(Zlib), bytes, item, shuffle, options, digest).value;
            ReadBack(registry, block.compression, block.subblocks, EmittedBytes(block, bytes), Some(|bytes|), limits, item) == Ok(bytes)
  {
    hide ReadBack, Lossless, Bounded, PreparedOf;
    SafeWidthIsReadable(registry, Zlib, ZlibBound, bytes, item, shuffle, options, digest, limits);
  }

  /** Zstandard pieces are never refused for their size. */
  lemma ZstdBlocksAreReadable(
    registry: Registry, bytes: Bytes, item: U64, shuffle: bool, options: PrepareOptions, digest: Bytes -> string, limits: PlanLimits)
    requires (forall k :: registry(k).kind == k) && Lossless(registry(Zstd))
    requires 0 < |bytes| <= MAX_U64 && Generous(limits, |bytes|, options)
    requires PreparedOf(registry(Zstd), bytes, item, shuffle, options, digest).Ok?
    ensures var block := PreparedOf(registry(Zstd), bytes, item, shuffle, options, digest).value;
            ReadBack(registry, block.compression, block.subblocks, EmittedBytes(block, bytes), Some(|bytes|), limits, item) == Ok(bytes)
  {
    var codec := registry(Zstd);
    var stream := StreamOf(bytes, item, shuffle);
    var limit, budget := ChunkLimit(Zstd, options.subblockBytes), Min(options.maxSerialized, options.maxCumulative);
    BlockRoundTrip(registry, Zstd, bytes, item, shuffle, options, digest, limits);
    LosslessAt(codec, [], 0);
    EncodingConserves(codec, stream, 0, limit, options.maxSubblocks, budget);
    hide ReadBack, Lossless, EncodeFrom, StreamOf, TotalCompressed, TotalUncompressed;
    var e := EncodingOf(codec, bytes, item, shuffle, options).value;
    Mul.Monotone(1, |e.serialized|, limits.maxRatio);
  }

  // ---------------------------------------------------------------- witnesses

  const Roomy: PrepareOptions := PrepareOptions(MAX_U64, 1, MAX_U64, MAX_U64, false)

  /** With the bound of zlib used to the full, a block of `size` zeros is prepared as one piece. */
  lemma ZerosArePrepared(size: int, digest: Bytes -> string)
    requires 0 < size <= 0x1_0000_0000
    ensures var zeros: Bytes := seq(size, _ => 0);
            && |zeros| == size && RespectsBudget(PaddingCodec(Zlib, ZlibBound))
            && PreparedOf(PaddingCodec(Zlib, ZlibBound), zeros, 1, false, Roomy, digest).Ok?
  {
    BoundsAreProper();
    PaddingIsLossless(Zlib, ZlibBound);
    var codec := PaddingCodec(Zlib, ZlibBound);
    var zeros: Bytes := seq(size, _ => 0);
    LosslessAt(codec, zeros, MAX_U64);
    assert zeros[0..size] == zeros;
    var piece := codec.compress(zeros, MAX_U64);
    assert piece.Ok?;
    EncodingEnds(codec, zeros, MAX_U64, 0, MAX_U64 - |piece.value|);
    hide Lossless, RespectsBudget, ProperBound, Bounded;
    assert EncodeFrom(codec, zeros, 0, MAX_U64, 1, MAX_U64) == Ok(Encoding(piece.value + [], [Subblock(|piece.value|, size)] + []));
  }

  /** The writer makes a zlib piece of four gibibytes, and no reader takes it: the input is too wide. */
  lemma WideInputWitness(digest: Bytes -> string, limits: PlanLimits)
    ensures var registry: Registry := k => PaddingCodec(k, ZlibBound);
            var zeros: Bytes := seq(0x1_0000_0000, _ => 0);
            && RespectsBudget(registry(Zlib))
            && PreparedOf(registry(Zlib), zeros, 1, false, Roomy, digest).Ok?
            && var block := PreparedOf(registry(Zlib), zeros, 1, false, Roomy, digest).value;
               && |EmittedBytes(block, zeros)| <= MAX_U64
               && ReadBack(registry, block.compression, block.subblocks, EmittedBytes(block, zeros), Some(|zeros|), limits, 1)
                  == Err(ResourceLimit)
  {
    var registry: Registry := k => PaddingCodec(k, ZlibBound);
    var zeros: Bytes := seq(0x1_0000_0000, _ => 0);
    BoundsAreProper();
    PaddingIsLossless(Zlib, ZlibBound);
    ZerosArePrepared(0x1_0000_0000, digest);
    hide ReadBack, Lossless, Bounded, PreparedOf, ProperBound, RespectsBudget;
    WideInputIsRefused(registry, Zlib, zeros, 1, false, Roomy, digest, limits);
  }

  /** One byte less fits the decoder's sizes before compression, but after the padding codec's compression it does not. */
  lemma WideOutputWitness(digest: Bytes -> string, limits: PlanLimits)
    ensures var registry: Registry := k => PaddingCodec(k, ZlibBound);
            var zeros: Bytes := seq(0xFFFF_FFFF, _ => 0);
            && Width(Zlib, |zeros|, Roomy) <= DecoderLimit(Zlib)
            && RespectsBudget(registry(Zlib))
            && PreparedOf(registry(Zlib), zeros, 1, false, Roomy, digest).Ok?
            && var block := PreparedOf(registry(Zlib), zeros, 1, false, Roomy, digest).value;
               && |EmittedBytes(block, zeros)| <= MAX_U64
               && ReadBack(registry, block.compression, block.subblocks, EmittedBytes(block, zeros), Some(|zeros|), limits, 1)
                  == Err(ResourceLimit)
  {
    var registry: Registry := k => PaddingCodec(k, ZlibBound);
    var zeros: Bytes := seq(0xFFFF_FFFF, _ => 0);
    BoundsAreProper();
    ZerosArePrepared(0xFFFF_FFFF, digest);
    hide ReadBack, Lossless, Bounded, PreparedOf, ProperBound, RespectsBudget;
    SafeWidthIsExact(registry, Zlib, ZlibBound, zeros, 1, false, Roomy, digest, limits);
  }

  import Mul
}
