/**
 Byte shuffling of a whole block. The writer gathers arbitrary ranges of the shuffled stream,
 the reader scatters arbitrary ranges of it back; neither ever holds the whole stream.
 */
module ByteShuffle {
  import opened Base
  import Mul

  /** The index in a block of `size` bytes that supplies byte `g` of its shuffled stream. */
  function SourceIndex(g: int, size: int, item: int): (i: int)
    requires 0 < item && 0 <= g < size
    ensures 0 <= i < size
  {
    var count := size / item;
    Mul.Split(size, item);
    if g < count * item then
      Mul.Split(g, count);
      Mul.QuotientRange(g, item, count);
      Mul.Index(g % count, g / count, count, item);
      (g % count) * item + g / count
    else g
  }

  /** The place in the shuffled stream of byte `i` of the block. */
  function ShuffledIndex(i: int, size: int, item: int): (g: int)
    requires 0 < item && 0 <= i < size
    ensures 0 <= g < size
  {
    var count := size / item;
    Mul.Split(size, item);
    if i < count * item then
      Mul.QuotientRange(i, count, item);
      Mul.Index(i % item, i / item, item, count);
      (i % item) * count + i / item
    else i
  }

  /** The two index maps undo each other, so both are permutations of [0, size). */
  lemma IndexMapsAreInverse(k: int, size: int, item: int)
    requires 0 < item && 0 <= k < size
    ensures SourceIndex(ShuffledIndex(k, size, item), size, item) == k
    ensures ShuffledIndex(SourceIndex(k, size, item), size, item) == k
  {
    if k < size / item * item {
      GatherUndoesScatter(k, size, item);
      ScatterUndoesGather(k, size, item);
    }
  }

  lemma GatherUndoesScatter(k: int, size: int, item: int)
    requires 0 < item && 0 <= k < size && k < size / item * item
    ensures SourceIndex(ShuffledIndex(k, size, item), size, item) == k
  {
    var count := size / item;
    Mul.QuotientRange(k, count, item);
    Mul.Index(k % item, k / item, item, count);
    Mul.DivMod(k % item, k / item, count);
    Mul.Split(k, item);
  }

  lemma ScatterUndoesGather(k: int, size: int, item: int)
    requires 0 < item && 0 <= k < size && k < size / item * item
    ensures ShuffledIndex(SourceIndex(k, size, item), size, item) == k
  {
    var count := size / item;
    Mul.QuotientRange(k, item, count);
    Mul.Index(k % count, k / count, count, item);
    Mul.DivMod(k % count, k / count, item);
    Mul.Split(k, count);
  }

  function Shuffled(block: Bytes, item: int): (stream: Bytes)
    requires 0 < item
    ensures |stream| == |block|
  {
    seq(|block|, g requires 0 <= g < |block| => block[SourceIndex(g, |block|, item)])
  }

  function Unshuffled(stream: Bytes, item: int): (block: Bytes)
    requires 0 < item
    ensures |block| == |stream|
  {
    seq(|stream|, i requires 0 <= i < |stream| => stream[ShuffledIndex(i, |stream|, item)])
  }

  /** Byte `plane` of item `k` is byte `k` of plane `plane`. */
  ghost predicate PlaneByte(block: Bytes, item: int, plane: int, k: int)
    requires 0 < item
  {
    var count := |block| / item;
    && 0 <= plane * count + k < count * item <= |block|
    && 0 <= k * item + plane < |block|
    && Shuffled(block, item)[plane * count + k] == block[k * item + plane]
  }

  lemma PlaneByteHolds(block: Bytes, item: int, plane: int, k: int)
    requires 0 < item && 0 <= plane < item && 0 <= k < |block| / item
    ensures PlaneByte(block, item, plane, k)
  {
    var count := |block| / item;
    Mul.Split(|block|, item);
    Mul.Index(plane, k, item, count);
    Mul.Index(k, plane, count, item);
    Mul.DivMod(plane, k, count);
  }

  /**
   The shuffled stream is the byte planes of the complete items in order, then the trailing
   partial item as it stands.
   */
  lemma ShuffledIsBytePlanes(block: Bytes, item: int)
    requires 0 < item
    ensures forall plane, k | 0 <= plane < item && 0 <= k < |block| / item :: PlaneByte(block, item, plane, k)
    ensures 0 <= |block| / item * item <= |block|
    ensures Shuffled(block, item)[|block| / item * item..] == block[|block| / item * item..]
  {
    forall plane, k | 0 <= plane < item && 0 <= k < |block| / item
      ensures PlaneByte(block, item, plane, k)
    {
      PlaneByteHolds(block, item, plane, k);
    }
    TailStays(block, item);
  }

  lemma TailStays(block: Bytes, item: int)
    requires 0 < item
    ensures 0 <= |block| / item * item <= |block|
    ensures Shuffled(block, item)[|block| / item * item..] == block[|block| / item * item..]
  {
    Mul.Split(|block|, item);
    var prefix := |block| / item * item;
    forall g | prefix <= g < |block|
      ensures SourceIndex(g, |block|, item) == g
    {
    }
  }

  lemma RoundTrip(bytes: Bytes, item: int)
    requires 0 < item
    ensures Unshuffled(Shuffled(bytes, item), item) == bytes
    ensures Shuffled(Unshuffled(bytes, item), item) == bytes
  {
    forall k | 0 <= k < |bytes|
      ensures Unshuffled(Shuffled(bytes, item), item)[k] == bytes[k]
      ensures Shuffled(Unshuffled(bytes, item), item)[k] == bytes[k]
    {
      IndexMapsAreInverse(k, |bytes|, item);
    }
  }

  predicate InvalidRange(total: int, item: int, offset: int, size: int) {
    item == 0 || offset > total || size > total - offset
  }

  /** Writer side: any range of the shuffled stream, gathered straight from the block. */
  method ShuffledRange(input: Bytes, item: U64, offset: U64, size: U64) returns (r: Result<Bytes>)
    requires |input| <= MAX_U64
    ensures r == if InvalidRange(|input|, item, offset, size) then Err(InvalidArgument)
                 else Ok(Shuffled(input, item)[offset..offset + size])
  {
    if item == 0 || offset > |input| || size > |input| - offset {
      return Err(InvalidArgument);
    }
    var itemCount: U64 := |input| / item;
    Mul.Split(|input|, item);
    var prefix: U64 := itemCount * item;
    var output := new Byte[size];
    var local: U64 := 0;
    while local < size
      invariant 0 <= local <= size
      invariant output[..local] == Shuffled(input, item)[offset..offset + local]
    {
      var g: U64 := offset + local;
      var from := g;
      if g < prefix {
        Mul.QuotientRange(g, item, itemCount);
        Mul.Index(g % itemCount, g / itemCount, itemCount, item);
        var byteIndex: U64 := g / itemCount;
        var itemIndex: U64 := g % itemCount;
        from := itemIndex * item + byteIndex;
      }
      assert from == SourceIndex(g, |input|, item);
      output[local] := input[from];
      local := local + 1;
    }
    assert output[..] == output[..size];
    return Ok(output[..]);
  }

  /**
   Reader side: one range of the shuffled stream is written to the places its bytes came from.
   The destination span is the first `total` bytes of `output`.
   */
  method ScatterUnshuffled(shuffled: Bytes, output: array<Byte>, total: U64, item: U64, offset: U64)
    returns (r: Result<U64>)
    requires total <= output.Length && |shuffled| <= MAX_U64
    modifies output
    ensures r == if InvalidRange(total, item, offset, |shuffled|) then Err(InvalidBlock) else Ok(|shuffled|)
    ensures r.Err? ==> output[..] == old(output[..])
    ensures r.Ok? ==> Scattered(old(output[..]), output[..], shuffled, total, item, offset)
  {
    if item == 0 || offset > total || |shuffled| > total - offset {
      return Err(InvalidBlock);
    }
    var itemCount: U64 := total / item;
    Mul.Split(total, item);
    var prefix: U64 := itemCount * item;
    ghost var before := output[..];
    var local: U64 := 0;
    while local < |shuffled|
      invariant 0 <= local <= |shuffled|
      invariant Scattered(before, output[..], shuffled[..local], total, item, offset)
    {
      var g: U64 := offset + local;
      var to := g;
      if g < prefix {
        Mul.QuotientRange(g, item, itemCount);
        Mul.Index(g % itemCount, g / itemCount, itemCount, item);
        var byteIndex: U64 := g / itemCount;
        var itemIndex: U64 := g % itemCount;
        to := itemIndex * item + byteIndex;
      }
      assert to == SourceIndex(g, total, item);
      ghost var was := output[..];
      output[to] := shuffled[local];
      ScatterOne(before, was, shuffled, total, item, offset, local);
      local := local + 1;
    }
    assert shuffled[..|shuffled|] == shuffled;
    return Ok(|shuffled|);
  }

  /** `after` is `before` with stream bytes [offset, offset + |piece|) put back in place. */
  ghost predicate Scattered(before: Bytes, after: Bytes, piece: Bytes, total: int, item: int, offset: int)
    requires 0 < item && 0 <= offset && offset + |piece| <= total <= |before|
  {
    && |after| == |before|
    && after[total..] == before[total..]
    && forall i {:trigger after[i]} | 0 <= i < total ::
         var g := ShuffledIndex(i, total, item);
         after[i] == if offset <= g < offset + |piece| then piece[g - offset] else before[i]
  }

  lemma ScatterOne(before: Bytes, was: Bytes, shuffled: Bytes, total: int, item: int, offset: int, local: int)
    requires 0 < item && 0 <= local < |shuffled| && 0 <= offset && offset + |shuffled| <= total <= |before|
    requires Scattered(before, was, shuffled[..local], total, item, offset)
    ensures var to := SourceIndex(offset + local, total, item);
            Scattered(before, was[to := shuffled[local]], shuffled[..local + 1], total, item, offset)
  {
    var to := SourceIndex(offset + local, total, item);
    var after := was[to := shuffled[local]];
    IndexMapsAreInverse(offset + local, total, item);
    forall i | 0 <= i < total
      ensures var g := ShuffledIndex(i, total, item);
              after[i] == if offset <= g < offset + local + 1 then shuffled[..local + 1][g - offset] else before[i]
    {
      IndexMapsAreInverse(i, total, item);
      assert was[i] == was[i];
    }
  }
}
