/** Caller-supplied byte sources, and the reader's loop that insists on every byte it asked for. */
module Source {
  import opened Base

  datatype ReadAnswer = ReadFailed | Data(bytes: Bytes)

  /** The bytes of an answer that reach the caller. */
  ghost function Accepted(a: ReadAnswer, count: int): Bytes {
    if a.Data? && |a.bytes| <= count then a.bytes else []
  }

  /**
   A source may answer each call as it likes: short, too long, empty, failing, or with different
   bytes each time. `answer` is indexed by the number of the call, its offset and its length.
   */
  class ByteSource {
    const answer: (int, int, int) -> ReadAnswer
    var calls: nat
    /** Every byte handed over so far, in the order in which it came. */
    ghost var transcript: Bytes

    constructor (answer: (int, int, int) -> ReadAnswer)
      ensures this.answer == answer && calls == 0 && transcript == []
    {
      this.answer := answer;
      calls := 0;
      transcript := [];
    }

    /** `read_at`: the bytes go to the front of the destination span, as far as they fit. */
    method ReadAt(offset: U64, destination: array<Byte>, from: int, count: int) returns (r: Result<nat>)
      requires 0 <= from && 0 <= count && from + count <= destination.Length
      modifies this, destination
      ensures calls == old(calls) + 1
      ensures transcript == old(transcript) + Accepted(answer(old(calls), offset, count), count)
      ensures var a := answer(old(calls), offset, count);
              match a
              case ReadFailed => r == Err(IoError) && destination[..] == old(destination[..])
              case Data(bytes) =>
                && r == Ok(|bytes|)
                && (|bytes| <= count ==>
                      forall k | 0 <= k < destination.Length ::
                        destination[k] == if from <= k < from + |bytes| then bytes[k - from] else old(destination[k]))
                && (|bytes| > count ==> destination[..] == old(destination[..]))
    {
      var a := answer(calls, offset, count);
      calls := calls + 1;
      match a
      case ReadFailed =>
        return Err(IoError);
      case Data(bytes) =>
        transcript := transcript + Accepted(a, count);
        if |bytes| <= count {
          forall k | from <= k < from + |bytes| {
            destination[k] := bytes[k - from];
          }
        }
        return Ok(|bytes|);
    }
  }

  /** Short reads are allowed, standing still and changing the content are not. */
  ghost predicate Serves(source: ByteSource, content: Bytes) {
    forall call, offset, count :: 0 <= offset && 0 < count && offset + count <= |content| ==>
      && source.answer(call, offset, count).Data?
      && 0 < |source.answer(call, offset, count).bytes| <= count
      && source.answer(call, offset, count).bytes == content[offset..offset + |source.answer(call, offset, count).bytes|]
  }

  lemma ServesAt(source: ByteSource, content: Bytes, call: int, offset: int, count: int)
    requires Serves(source, content) && 0 <= offset && 0 < count && offset + count <= |content|
    ensures var a := source.answer(call, offset, count);
            a.Data? && 0 < |a.bytes| <= count && forall k | 0 <= k < |a.bytes| :: a.bytes[k] == content[offset + k]
  {
  }

  /** `read_exact`: fills the first `count` bytes of the buffer or fails; a faithful source makes it succeed. */
  method ReadExact(source: ByteSource, offset: U64, buffer: array<Byte>, count: int, ghost content: Bytes) returns (r: Result<int>)
    requires 0 <= count <= buffer.Length && |content| <= MAX_U64
    modifies source, buffer
    ensures buffer[count..] == old(buffer[count..])
    ensures r.Ok? ==> r.value == count
    ensures Serves(source, content) && offset + count <= |content| ==>
              r.Ok? && buffer[..count] == content[offset..offset + count]
  {
    hide Serves;
    ghost var faithful := Serves(source, content) && offset + count <= |content|;
    var total := 0;
    while total < count
      invariant 0 <= total <= count
      invariant forall k | count <= k < buffer.Length :: buffer[k] == old(buffer[k])
      invariant faithful ==> forall k | 0 <= k < total :: buffer[k] == content[offset + k]
    {
      if offset > MAX_U64 - total {
        return Err(Overflow);
      }
      if faithful {
        ServesAt(source, content, source.calls, offset + total, count - total);
      }
      var read :- source.ReadAt(offset + total, buffer, total, count - total);
      if read == 0 || read > count - total {
        return Err(IoError);
      }
      total := total + read;
    }
    return Ok(total);
  }

  // ---------------------------------------------------------------- one block of a document

  /** A block's serialized bytes were decoded from the header, or lie in the source. */
  datatype BlockSource = EmbeddedBlock(bytes: Bytes) | AttachedBlock(offset: U64, size: U64)

  function BlockSize(block: BlockSource): int {
    if block.EmbeddedBlock? then |block.bytes| else block.size
  }

  predicate InSource(block: BlockSource) {
    BlockSize(block) <= MAX_U64 && (block.AttachedBlock? ==> block.offset + block.size <= MAX_U64)
  }

  /** A short read is fine, a wrong one is not. */
  ghost predicate GoodAnswer(a: ReadAnswer, data: Bytes, offset: int, count: int)
    requires 0 <= offset && 0 <= count && offset + count <= |data|
  {
    a.Data? && 0 < |a.bytes| <= count && forall k | 0 <= k < |a.bytes| :: a.bytes[k] == data[offset + k]
  }

  /** Whenever the block is read, in whatever portions, these are its bytes. */
  ghost predicate Supplies(source: ByteSource, block: BlockSource, data: Bytes) {
    && |data| == BlockSize(block)
    && (block.EmbeddedBlock? ==> data == block.bytes)
    && (block.AttachedBlock? ==>
          forall call, at, count :: block.offset <= at && 0 < count && at + count <= block.offset + block.size ==>
            GoodAnswer(source.answer(call, at, count), data, at - block.offset, count))
  }

  lemma SuppliesAt(source: ByteSource, block: BlockSource, data: Bytes, call: int, at: int, count: int)
    requires Supplies(source, block, data) && block.AttachedBlock?
    requires block.offset <= at && 0 < count && at + count <= block.offset + block.size
    ensures |data| == block.size && GoodAnswer(source.answer(call, at, count), data, at - block.offset, count)
  {
  }

  /** A source that serves a file supplies every block inside it. */
  lemma ServedBlock(source: ByteSource, content: Bytes, block: BlockSource)
    requires Serves(source, content) && block.AttachedBlock? && block.offset + block.size <= |content|
    ensures Supplies(source, block, content[block.offset..block.offset + block.size])
  {
    hide Serves;
    var data := content[block.offset..block.offset + block.size];
    forall call, at, count | block.offset <= at && 0 < count && at + count <= block.offset + block.size
      ensures GoodAnswer(source.answer(call, at, count), data, at - block.offset, count)
    {
      ServesAt(source, content, call, at, count);
    }
  }

  /** `got` is the front of the block as it was handed over: part of the header, or the source's last words. */
  ghost predicate Obtained(block: BlockSource, before: Bytes, after: Bytes, got: Bytes) {
    if block.EmbeddedBlock? then after == before && got <= block.bytes else after == before + got
  }

  /** The same of a chunk from the middle of the block. */
  ghost predicate ChunkObtained(block: BlockSource, blockOffset: int, before: Bytes, after: Bytes, chunk: Bytes)
    requires 0 <= blockOffset && blockOffset + |chunk| <= BlockSize(block)
  {
    if block.EmbeddedBlock? then after == before && chunk == block.bytes[blockOffset..blockOffset + |chunk|]
    else after == before + chunk
  }

  /** Whatever else was handed over since, `got` was, and first. */
  ghost predicate ObtainedFront(block: BlockSource, before: Bytes, after: Bytes, got: Bytes) {
    if block.EmbeddedBlock? then before <= after && got <= block.bytes else before + got <= after
  }

  lemma FrontOfObtained(block: BlockSource, before: Bytes, middle: Bytes, after: Bytes, got: Bytes)
    requires Obtained(block, before, middle, got) && middle <= after
    ensures ObtainedFront(block, before, after, got)
  {
  }

  lemma ObtainedNothing(block: BlockSource, heard: Bytes)
    ensures Obtained(block, heard, heard, [])
  {
  }

  lemma ObtainedNext(block: BlockSource, before: Bytes, now: Bytes, after: Bytes, got: Bytes, chunk: Bytes)
    requires |got| + |chunk| <= BlockSize(block)
    requires Obtained(block, before, now, got) && ChunkObtained(block, |got|, now, after, chunk)
    ensures Obtained(block, before, after, got + chunk)
  {
    if block.AttachedBlock? {
      assert before + got + chunk == before + (got + chunk);
    }
  }

  /** `read_serialized_chunk`: bytes of the block into buffer[from..from + count], nothing else. */
  method ReadChunk(
    source: ByteSource, block: BlockSource, blockOffset: U64, buffer: array<Byte>, from: int, count: int, ghost data: Bytes)
    returns (r: Result<int>)
    requires InSource(block) && blockOffset + count <= BlockSize(block)
    requires 0 <= from && 0 <= count && from + count <= buffer.Length
    modifies source, buffer
    ensures buffer[..from] == old(buffer[..from]) && buffer[from + count..] == old(buffer[from + count..])
    ensures old(source.transcript) <= source.transcript
    ensures r.Ok? ==> r.value == count
                      && ChunkObtained(block, blockOffset, old(source.transcript), source.transcript, buffer[from..from + count])
    ensures Supplies(source, block, data) ==>
              r.Ok? && |data| == BlockSize(block) && buffer[from..from + count] == data[blockOffset..blockOffset + count]
  {
    if block.EmbeddedBlock? {
      CopyChunk(block.bytes[blockOffset..blockOffset + count], buffer, from);
      return Ok(count);
    }
    r := ReadAttached(source, block, blockOffset, buffer, from, count, data);
  }

  method CopyChunk(bytes: Bytes, buffer: array<Byte>, from: int)
    requires 0 <= from && from + |bytes| <= buffer.Length
    modifies buffer
    ensures buffer[..] == old(buffer[..from]) + bytes + old(buffer[from + |bytes|..])
  {
    forall k | 0 <= k < |bytes| {
      buffer[from + k] := bytes[k];
    }
  }

  method ReadAttached(
    source: ByteSource, block: BlockSource, blockOffset: U64, buffer: array<Byte>, from: int, count: int, ghost data: Bytes)
    returns (r: Result<int>)
    requires InSource(block) && block.AttachedBlock? && 0 <= count && blockOffset + count <= block.size
    requires 0 <= from && from + count <= buffer.Length
    modifies source, buffer
    ensures buffer[..from] == old(buffer[..from]) && buffer[from + count..] == old(buffer[from + count..])
    ensures old(source.transcript) <= source.transcript
    ensures r.Ok? ==> r.value == count && source.transcript == old(source.transcript) + buffer[from..from + count]
    ensures Supplies(source, block, data) ==>
              r.Ok? && |data| == block.size && buffer[from..from + count] == data[blockOffset..blockOffset + count]
  {
    hide Supplies;
    ghost var faithful := Supplies(source, block, data);
    if faithful {
      SuppliesSize(source, block, data);
    }
    ghost var before, got := source.transcript, [];
    var total := 0;
    while total < count
      invariant 0 <= total <= count
      invariant forall k | 0 <= k < from || from + count <= k < buffer.Length :: buffer[k] == old(buffer[k])
      invariant source.transcript == before + got && |got| == total
      invariant forall k {:trigger got[k]} | 0 <= k < total :: buffer[from + k] == got[k]
      invariant faithful ==> forall k {:trigger got[k]} | 0 <= k < total :: got[k] == data[blockOffset + k]
    {
      var at := block.offset + blockOffset + total;
      if faithful {
        SuppliesAt(source, block, data, source.calls, at, count - total);
      }
      var read := ReadOnce(source, at, buffer, from + total, count - total);
      if read.Err? {
        return read;
      }
      ghost var piece := buffer[from + total..from + total + read.value];
      assert before + got + piece == before + (got + piece);
      got := got + piece;
      total := total + read.value;
    }
    assert buffer[from..from + count] == got;
    return Ok(total);
  }

  /** One call of the source that must make progress. */
  method ReadOnce(source: ByteSource, at: U64, buffer: array<Byte>, from: int, count: int) returns (r: Result<int>)
    requires 0 <= from && 0 < count && from + count <= buffer.Length
    modifies source, buffer
    ensures forall k | 0 <= k < buffer.Length && !(from <= k < from + count) :: buffer[k] == old(buffer[k])
    ensures var a := source.answer(old(source.calls), at, count);
            && (r.Ok? <==> a.Data? && 0 < |a.bytes| <= count)
            && (r.Err? ==> source.transcript == old(source.transcript))
            && (r.Ok? ==>
                  && r.value == |a.bytes|
                  && buffer[from..from + r.value] == a.bytes
                  && source.transcript == old(source.transcript) + buffer[from..from + r.value]
                  && forall k | from + r.value <= k < buffer.Length || 0 <= k < from :: buffer[k] == old(buffer[k]))
  {
    var read :- source.ReadAt(at, buffer, from, count);
    if read == 0 || read > count {
      return Err(IoError);
    }
    return Ok(read);
  }

  lemma SuppliesSize(source: ByteSource, block: BlockSource, data: Bytes)
    requires Supplies(source, block, data)
    ensures |data| == BlockSize(block)
  {
  }

  lemma ChunkAppended(before: Bytes, after: Bytes, total: int, read: int, size: int)
    requires 0 <= total && 0 <= read && total + read <= size <= |before| == |after|
    requires after[..total] == before[..total] && after[total + read..] == before[total + read..]
    ensures after[..total + read] == before[..total] + after[total..total + read]
    ensures after[size..] == before[size..]
  {
    assert after[size..] == after[total + read..][size - total - read..];
    assert before[size..] == before[total + read..][size - total - read..];
  }

  const READ_CHUNK := 8 * 1024 * 1024

  /** `copy_serialized_image`: the whole block, in bounded chunks, to the front of the buffer. */
  method CopySerialized(source: ByteSource, block: BlockSource, buffer: array<Byte>, ghost data: Bytes) returns (r: Result<int>)
    requires InSource(block) && BlockSize(block) <= buffer.Length
    modifies source, buffer
    ensures buffer[BlockSize(block)..] == old(buffer[BlockSize(block)..])
    ensures r.Ok? ==> r.value == BlockSize(block)
                      && Obtained(block, old(source.transcript), source.transcript, buffer[..BlockSize(block)])
    ensures Supplies(source, block, data) ==> r.Ok? && buffer[..BlockSize(block)] == data
  {
    hide Supplies;
    var expected := BlockSize(block);
    ghost var faithful := Supplies(source, block, data);
    if faithful {
      SuppliesSize(source, block, data);
    }
    hide Obtained, ChunkObtained;
    ghost var before := buffer[..];
    ghost var got: Bytes := [];
    var total := 0;
    ObtainedNothing(block, source.transcript);
    while total < expected
      invariant 0 <= total <= expected
      invariant buffer[expected..] == before[expected..]
      invariant got == buffer[..total] && Obtained(block, old(source.transcript), source.transcript, got)
      invariant faithful ==> got == data[..total]
    {
      var chunk := Min(READ_CHUNK, expected - total);
      ghost var now, heard := buffer[..], source.transcript;
      var read :- ReadChunk(source, block, total, buffer, total, chunk, data);
      ChunkAppended(now, buffer[..], total, read, expected);
      ObtainedNext(block, old(source.transcript), heard, source.transcript, got, buffer[total..total + read]);
      got := got + buffer[total..total + read];
      total := total + read;
    }
    return Ok(total);
  }
}
