/** The writer's output: every byte it offers to a sink, in order, and what a reader finds in the result. */
module Emission {
  import opened Base
  import opened Layout
  import opened Ranges

  datatype WriteAnswer = WriteFailed | Accepted(count: nat)

  /**
   A sink may take any part of what it is offered, or fail, call after call. It keeps what it took.
   An answer larger than the offer is a broken promise; such a sink has still taken no more than the offer.
   */
  class ByteSink {
    const answer: (int, int) -> WriteAnswer
    const flushes: bool
    var calls: nat
    var accepted: Bytes
    var flushedAt: Option<int>

    constructor (answer: (int, int) -> WriteAnswer, flushes: bool)
      ensures this.answer == answer && this.flushes == flushes && calls == 0 && accepted == [] && flushedAt == None
    {
      this.answer := answer;
      this.flushes := flushes;
      calls, accepted, flushedAt := 0, [], None;
    }

    method Write(bytes: Bytes) returns (r: Result<nat>)
      modifies this`calls, this`accepted
      ensures calls == old(calls) + 1
      ensures match answer(old(calls), |bytes|)
              case WriteFailed => r == Err(IoError) && accepted == old(accepted)
              case Accepted(n) => r == Ok(n) && accepted == old(accepted) + bytes[..Min(n, |bytes|)]
    {
      var a := answer(calls, |bytes|);
      calls := calls + 1;
      match a
      case WriteFailed =>
        return Err(IoError);
      case Accepted(n) =>
        accepted := accepted + bytes[..Min(n, |bytes|)];
        return Ok(n);
    }

    method Flush() returns (r: Result<bool>)
      modifies this`flushedAt
      ensures r == if flushes then Ok(true) else Err(IoError)
      ensures flushedAt == if flushes then Some(|accepted|) else old(flushedAt)
    {
      if !flushes {
        return Err(IoError);
      }
      flushedAt := Some(|accepted|);
      return Ok(true);
    }
  }

  /** A sink that takes something of every offer, however little. */
  ghost predicate Progresses(sink: ByteSink) {
    forall call: nat, offer: int | 0 < offer :: TakesSome(sink.answer(call, offer), offer)
  }

  predicate TakesSome(a: WriteAnswer, offer: int) {
    a.Accepted? && 0 < a.count <= offer
  }

  const WRITE_CHUNK := 8 * 1024 * 1024

  /** `write_all`: all of the bytes, or an error after some of them. */
  method WriteAll(sink: ByteSink, bytes: Bytes) returns (r: Result<int>)
    modifies sink`calls, sink`accepted
    ensures old(sink.accepted) <= sink.accepted <= old(sink.accepted) + bytes
    ensures r.Ok? ==> r.value == |bytes| && sink.accepted == old(sink.accepted) + bytes
    ensures Progresses(sink) ==> r.Ok?
  {
    var written := 0;
    while written < |bytes|
      invariant 0 <= written <= |bytes|
      invariant sink.accepted == old(sink.accepted) + bytes[..written]
    {
      var count := Min(WRITE_CHUNK, |bytes| - written);
      assert Progresses(sink) ==> TakesSome(sink.answer(sink.calls, count), count);
      hide Progresses;
      var n :- sink.Write(bytes[written..written + count]);
      FrontGrows(bytes, written, count, Min(n, count));
      if n == 0 || n > count {
        return Err(IoError);
      }
      written := written + n;
    }
    return Ok(written);
  }

  lemma FrontGrows(bytes: Bytes, written: int, count: int, n: int)
    requires 0 <= written && 0 <= n <= count && written + count <= |bytes|
    ensures bytes[..written] + bytes[written..written + count][..n] == bytes[..written + n]
  {
  }

  // ---------------------------------------------------------------- the canonical file image

  /** A block's bytes are in memory or in a spool file, which ought to have the recorded size. */
  datatype BlockData = InMemory(bytes: Bytes) | Spooled(file: Bytes, expected: U64)

  function Zeros(n: int): (z: Bytes)
    requires 0 <= n
    ensures |z| == n && forall i | 0 <= i < n :: z[i] == 0
  {
    seq(n, _ => 0)
  }

  function SizeOf(block: BlockData): int {
    if block.InMemory? then |block.bytes| else block.expected
  }

  /** A short spool file is never written to its end, so what would follow does not matter. */
  function Contents(block: BlockData): (c: Bytes)
    ensures |c| == SizeOf(block)
  {
    match block
    case InMemory(bytes) => bytes
    case Spooled(file, expected) =>
      if expected <= |file| then file[..expected] else file + Zeros(expected - |file|)
  }

  /** A spool file has the size that was recorded for it. */
  predicate RightSize(block: BlockData) {
    block.Spooled? ==> |block.file| == block.expected
  }

  function SizesOf(blocks: seq<BlockData>): (sizes: seq<int>)
    ensures |sizes| == |blocks|
  {
    seq(|blocks|, i requires 0 <= i < |blocks| => SizeOf(blocks[i]))
  }

  const SIGNATURE: Bytes := [0x58, 0x49, 0x53, 0x46, 0x30, 0x31, 0x30, 0x30]

  function LittleEndian32(n: int): Bytes {
    [n % 256, n / 256 % 256, n / 65536 % 256, n / 16777216 % 256]
  }

  function Preamble(headerLength: int): (p: Bytes)
    ensures |p| == 16
  {
    SIGNATURE + LittleEndian32(headerLength) + [0, 0, 0, 0]
  }

  /** Each block from `i` on can start where it should: at or after the position reached before it. */
  predicate Reachable(blocks: seq<BlockData>, offsets: seq<U64>, i: int, position: int)
    requires |blocks| == |offsets| && 0 <= i <= |blocks|
    decreases |blocks| - i
  {
    i == |blocks| || (position <= offsets[i] && Reachable(blocks, offsets, i + 1, offsets[i] + SizeOf(blocks[i])))
  }

  /** The file from `position` on: zeros up to the next block, the block, and so on. */
  function Tail(blocks: seq<BlockData>, offsets: seq<U64>, i: int, position: int): Bytes
    requires |blocks| == |offsets| && 0 <= i <= |blocks| && Reachable(blocks, offsets, i, position)
    decreases |blocks| - i
  {
    if i == |blocks| then []
    else Zeros(offsets[i] - position) + (Contents(blocks[i]) + Tail(blocks, offsets, i + 1, offsets[i] + SizeOf(blocks[i])))
  }

  function HeaderEnd(header: Bytes): int {
    16 + |header|
  }

  function FileImage(header: Bytes, blocks: seq<BlockData>, offsets: seq<U64>): Bytes
    requires |blocks| == |offsets| && Reachable(blocks, offsets, 0, HeaderEnd(header))
  {
    Preamble(|header|) + (header + Tail(blocks, offsets, 0, HeaderEnd(header)))
  }

  // ---------------------------------------------------------------- emission

  /** After `now`, `next` and `rest` are still to come. */
  lemma Onward(now: Bytes, next: Bytes, rest: Bytes)
    ensures now + next + rest == now + (next + rest)
    ensures now + next <= now + (next + rest)
  {
  }

  lemma PrefixOfPrefix(a: Bytes, b: Bytes, c: Bytes)
    requires a <= b <= c
    ensures a <= c
  {
  }

  const ZERO_CHUNK := 4096
  const SPOOL_CHUNK := 1024 * 1024

  /** The padding loop, one buffer of zeros at a time. */
  method WritePadding(sink: ByteSink, padding: int) returns (r: Result<int>)
    requires 0 <= padding
    modifies sink`calls, sink`accepted
    ensures old(sink.accepted) <= sink.accepted <= old(sink.accepted) + Zeros(padding)
    ensures r.Ok? ==> sink.accepted == old(sink.accepted) + Zeros(padding)
    ensures Progresses(sink) ==> r.Ok?
  {
    var left := padding;
    while left != 0
      invariant 0 <= left <= padding
      invariant sink.accepted == old(sink.accepted) + Zeros(padding - left)
    {
      var count := Min(left, ZERO_CHUNK);
      assert Zeros(padding - left) + Zeros(count) == Zeros(padding - left + count);
      assert Zeros(padding) == Zeros(padding - left + count) + Zeros(left - count);
      var n :- WriteAll(sink, Zeros(count));
      left := left - count;
    }
    return Ok(padding);
  }

  /** `write_file_contents`: copies a spool file chunk by chunk, and insists on its size. */
  method WriteSpool(sink: ByteSink, block: BlockData) returns (r: Result<int>)
    requires block.Spooled?
    modifies sink`calls, sink`accepted
    ensures old(sink.accepted) <= sink.accepted <= old(sink.accepted) + Contents(block)
    ensures r.Ok? ==> sink.accepted == old(sink.accepted) + Contents(block) && RightSize(block)
    ensures Progresses(sink) ==> (r.Ok? <==> RightSize(block))
  {
    var written := 0;
    while written < block.expected
      invariant 0 <= written <= block.expected && written <= |block.file|
      invariant sink.accepted == old(sink.accepted) + Contents(block)[..written]
    {
      var count := Min(block.expected - written, SPOOL_CHUNK);
      if count > |block.file| - written {
        return Err(IoError);
      }
      assert Contents(block)[..written] + block.file[written..written + count] == Contents(block)[..written + count];
      var n :- WriteAll(sink, block.file[written..written + count]);
      written := written + count;
    }
    if |block.file| > written {
      return Err(IoError);
    }
    return Ok(written);
  }

  method WriteBlock(sink: ByteSink, block: BlockData) returns (r: Result<int>)
    modifies sink`calls, sink`accepted
    ensures old(sink.accepted) <= sink.accepted <= old(sink.accepted) + Contents(block)
    ensures r.Ok? ==> sink.accepted == old(sink.accepted) + Contents(block) && RightSize(block)
    ensures Progresses(sink) ==> (r.Ok? <==> RightSize(block))
  {
    match block
    case InMemory(bytes) =>
      r := WriteAll(sink, bytes);
    case Spooled(_, _) =>
      r := WriteSpool(sink, block);
  }

  /** One block with the padding before it; `rest` is what the file still needs after it. */
  method EmitBlock(sink: ByteSink, padding: int, block: BlockData, ghost rest: Bytes) returns (r: Result<bool>)
    requires 0 <= padding
    modifies sink`calls, sink`accepted
    ensures sink.accepted <= old(sink.accepted) + (Zeros(padding) + (Contents(block) + rest))
    ensures r.Ok? ==> sink.accepted + rest == old(sink.accepted) + (Zeros(padding) + (Contents(block) + rest))
    ensures r.Ok? ==> RightSize(block)
    ensures Progresses(sink) ==> (r.Ok? <==> RightSize(block))
  {
    hide Contents, Zeros, Progresses;
    ghost var before := sink.accepted;
    ghost var zeros, contents := Zeros(padding), Contents(block);
    Onward(before, zeros, contents + rest);
    var padded := WritePadding(sink, padding);
    if padded.Err? {
      PrefixOfPrefix(sink.accepted, before + zeros, before + (zeros + (contents + rest)));
      return Err(padded.error);
    }
    Onward(before + zeros, contents, rest);
    var written := WriteBlock(sink, block);
    if written.Err? {
      PrefixOfPrefix(sink.accepted, before + zeros + contents, before + zeros + (contents + rest));
      return Err(written.error);
    }
    return Ok(true);
  }

  method EmitBlocks(sink: ByteSink, blocks: seq<BlockData>, offsets: seq<U64>, position: int) returns (r: Result<bool>)
    requires |blocks| == |offsets| && Reachable(blocks, offsets, 0, position)
    modifies sink`calls, sink`accepted
    ensures sink.accepted <= old(sink.accepted) + Tail(blocks, offsets, 0, position)
    ensures r.Ok? ==> sink.accepted == old(sink.accepted) + Tail(blocks, offsets, 0, position)
    ensures r.Ok? ==> forall k | 0 <= k < |blocks| :: RightSize(blocks[k])
    ensures Progresses(sink) ==> (r.Ok? <==> forall k | 0 <= k < |blocks| :: RightSize(blocks[k]))
  {
    hide Contents, Zeros, Progresses;
    ghost var whole := sink.accepted + Tail(blocks, offsets, 0, position);
    var at := position;
    var i := 0;
    while i < |blocks|
      invariant 0 <= i <= |blocks| && Reachable(blocks, offsets, i, at)
      invariant sink.accepted + Tail(blocks, offsets, i, at) == whole
      invariant forall k | 0 <= k < i :: RightSize(blocks[k])
    {
      var next := offsets[i] + SizeOf(blocks[i]);
      var emitted := EmitBlock(sink, offsets[i] - at, blocks[i], Tail(blocks, offsets, i + 1, next));
      if emitted.Err? {
        return Err(emitted.error);
      }
      at := next;
      i := i + 1;
    }
    assert sink.accepted + [] == sink.accepted;
    return Ok(true);
  }

  /**
   The emission half of `write_impl`. Whatever the sink does, it has taken a prefix of the one
   canonical image; success means all of it, and a flush after the last byte. A sink that takes
   something of every offer and flushes makes it a success, if the spool files have their sizes.
   */
  method EmitFile(sink: ByteSink, header: Bytes, blocks: seq<BlockData>, offsets: seq<U64>) returns (r: Result<bool>)
    requires |blocks| == |offsets| && Reachable(blocks, offsets, 0, HeaderEnd(header))
    modifies sink`calls, sink`accepted, sink`flushedAt
    ensures sink.accepted <= old(sink.accepted) + FileImage(header, blocks, offsets)
    ensures r.Ok? ==>
              && sink.accepted == old(sink.accepted) + FileImage(header, blocks, offsets)
              && sink.flushedAt == Some(|sink.accepted|)
              && forall k | 0 <= k < |blocks| :: RightSize(blocks[k])
    ensures Progresses(sink) && sink.flushes ==> (r.Ok? <==> forall k | 0 <= k < |blocks| :: RightSize(blocks[k]))
    ensures r.Err? ==> sink.flushedAt == old(sink.flushedAt)
  {
    hide Preamble, Tail, Reachable, Progresses, RightSize;
    ghost var before := sink.accepted;
    ghost var preamble, tail := Preamble(|header|), Tail(blocks, offsets, 0, HeaderEnd(header));
    Onward(before, preamble, header + tail);
    var preambleWritten := WriteAll(sink, Preamble(|header|));
    if preambleWritten.Err? {
      PrefixOfPrefix(sink.accepted, before + preamble, before + (preamble + (header + tail)));
      return Err(preambleWritten.error);
    }
    Onward(before + preamble, header, tail);
    var headerWritten := WriteAll(sink, header);
    if headerWritten.Err? {
      PrefixOfPrefix(sink.accepted, before + preamble + header, before + preamble + (header + tail));
      return Err(headerWritten.error);
    }
    var _ :- EmitBlocks(sink, blocks, offsets, HeaderEnd(header));
    var _ :- sink.Flush();
    return Ok(true);
  }

  // ---------------------------------------------------------------- what the image contains

  lemma {:induction false} TailLength(blocks: seq<BlockData>, offsets: seq<U64>, i: int, position: int)
    requires |blocks| == |offsets| && 0 <= i <= |blocks| && Reachable(blocks, offsets, i, position)
    ensures |Tail(blocks, offsets, i, position)|
         == if i == |blocks| then 0 else offsets[|blocks| - 1] + SizeOf(blocks[|blocks| - 1]) - position
    decreases |blocks| - i
  {
    if i < |blocks| {
      TailLength(blocks, offsets, i + 1, offsets[i] + SizeOf(blocks[i]));
    }
  }

  /** Byte x of the file, seen from a position at or before it, is a block's byte if a block covers x and zero if none does. */
  lemma {:induction false} TailAt(blocks: seq<BlockData>, offsets: seq<U64>, i: int, position: int, x: int)
    requires |blocks| == |offsets| && 0 <= i <= |blocks| && Reachable(blocks, offsets, i, position)
    requires position <= x < position + |Tail(blocks, offsets, i, position)|
    ensures var b := Tail(blocks, offsets, i, position)[x - position];
            || (exists k :: i <= k < |blocks| && 0 <= x - offsets[k] < SizeOf(blocks[k]) && b == Contents(blocks[k])[x - offsets[k]])
            || (b == 0 && forall k | i <= k < |blocks| :: !(0 <= x - offsets[k] < SizeOf(blocks[k])))
    decreases |blocks| - i
  {
    hide Contents;
    if i < |blocks| {
      var next := offsets[i] + SizeOf(blocks[i]);
      var zeros, contents, rest := Zeros(offsets[i] - position), Contents(blocks[i]), Tail(blocks, offsets, i + 1, next);
      var b := Tail(blocks, offsets, i, position)[x - position];
      assert Tail(blocks, offsets, i, position) == zeros + contents + rest;
      StaysBehind(blocks, offsets, i + 1, next);
      if x < offsets[i] {
        assert b == zeros[x - position];
      } else if x < next {
        assert b == contents[x - offsets[i]];
      } else {
        assert b == rest[x - next];
        TailAt(blocks, offsets, i + 1, next, x);
      }
    }
  }

  lemma {:induction false} StaysBehind(blocks: seq<BlockData>, offsets: seq<U64>, i: int, position: int)
    requires |blocks| == |offsets| && 0 <= i <= |blocks| && Reachable(blocks, offsets, i, position)
    ensures forall k | i <= k < |blocks| :: position <= offsets[k]
    ensures forall k, j | i <= k < j < |blocks| :: offsets[k] + SizeOf(blocks[k]) <= offsets[j]
    decreases |blocks| - i
  {
    if i < |blocks| {
      StaysBehind(blocks, offsets, i + 1, offsets[i] + SizeOf(blocks[i]));
    }
  }

  /** What the layout loop arranged is what the emission loops need. */
  lemma {:induction false} InOrderIsReachable(
    blocks: seq<BlockData>, sizes: seq<U64>, p: Placement, first: int, alignment: int, i: int, position: int)
    requires 0 < alignment && InOrder(sizes, p, first, alignment) && sizes == SizesOf(blocks)
    requires 0 <= i <= |blocks|
    requires position <= if i == 0 then first else p.offsets[i - 1] as int + sizes[i - 1]
    ensures Reachable(blocks, p.offsets, i, position)
    decreases |blocks| - i
  {
    if i < |blocks| {
      InOrderIsReachable(blocks, sizes, p, first, alignment, i + 1, p.offsets[i] as int + sizes[i]);
    }
  }

  function RangesOf(sizes: seq<U64>, offsets: seq<U64>): (ranges: seq<AttachedRange>)
    requires |sizes| == |offsets|
    ensures |ranges| == |sizes|
  {
    seq(|sizes|, i requires 0 <= i < |sizes| => AttachedRange(offsets[i], sizes[i]))
  }

  /** The number that four bytes stand for, the least significant first. */
  function NumberAt(bytes: Bytes, at: int): int
    requires 0 <= at && at + 4 <= |bytes|
  {
    bytes[at] as int + 0x100 * (bytes[at + 1] as int) + 0x1_0000 * (bytes[at + 2] as int) + 0x100_0000 * (bytes[at + 3] as int)
  }

  /** A file begins with the characters of its signature, the length of its header, zeros, and the header itself. */
  predicate BeginsWith(image: Bytes, header: Bytes) {
    && 16 + |header| <= |image|
    && (forall i | 0 <= i < 8 :: image[i] == "XISF0100"[i] as int)
    && NumberAt(image, 8) == |header|
    && image[12..16] == [0, 0, 0, 0]
    && image[16..16 + |header|] == header
  }

  /** The front of every emitted file. */
  lemma HeaderIsInPlace(header: Bytes, blocks: seq<BlockData>, offsets: seq<U64>)
    requires |blocks| == |offsets| && Reachable(blocks, offsets, 0, HeaderEnd(header)) && |header| <= 0xFFFF_FFFF
    ensures BeginsWith(FileImage(header, blocks, offsets), header)
  {
    hide Tail, Reachable;
    var image, p := FileImage(header, blocks, offsets), Preamble(|header|);
    assert forall i | 0 <= i < 16 :: image[i] == p[i];
    assert forall i | 0 <= i < |header| :: image[16 + i] == header[i];
    assert p[8] == |header| % 256 && p[9] == |header| / 256 % 256;
    assert p[10] == |header| / 65536 % 256 && p[11] == |header| / 16777216 % 256;
    LittleEndianSum(|header|);
  }

  lemma LittleEndianSum(n: int)
    requires 0 <= n <= 0xFFFF_FFFF
    ensures n % 256 + 256 * (n / 256 % 256) + 65536 * (n / 65536 % 256) + 16777216 * (n / 16777216 % 256) == n
  {
    assert n / 65536 == n / 256 / 256 && n / 16777216 == n / 256 / 256 / 256;
  }

  /** A consistent layout with real blocks, and the header text as its bytes. */
  ghost predicate Written(
    unit: Unit, sizes: seq<U64>, alignment: U64, layout: FileLayout, header: Bytes, blocks: seq<BlockData>)
  {
    && sizes != [] && |sizes| == BlockCount(unit) && 16 <= alignment
    && Truthful(unit, sizes, alignment, layout)
    && sizes == SizesOf(blocks)
    && (forall i | 0 <= i < |sizes| :: sizes[i] > 0)
    && |header| == |layout.header|
  }

  lemma WrittenIsInOrder(unit: Unit, sizes: seq<U64>, alignment: U64, layout: FileLayout, header: Bytes, blocks: seq<BlockData>)
    requires Written(unit, sizes, alignment, layout, header, blocks)
    ensures var a := layout.attachmentOffset;
            && a % alignment == 0 && HeaderEnd(header) <= a < HeaderEnd(header) + alignment
            && InOrder(sizes, Placement(layout.offsets, layout.fileSize), a, alignment)
            && |layout.offsets| == |blocks|
            && Reachable(blocks, layout.offsets, 0, HeaderEnd(header))
  {
    hide HeaderText, Place;
    var a := layout.attachmentOffset;
    NextOffsetIsAligned(unit, sizes, alignment, a);
    NextOffsetUnfold(unit, sizes, alignment, a, layout.offsets, layout.fileSize);
    AlignUpIsLeast(HeaderEnd(header), alignment, 0);
    PlacementIsInOrder(sizes, a, alignment);
    InOrderIsReachable(blocks, sizes, Placement(layout.offsets, layout.fileSize), a, alignment, 0, HeaderEnd(header));
  }

  /**
   Every file the writer emits passes the reader's payload checks: the declared ranges are real,
   inside the payload and apart, the file has the promised size, and every byte between blocks is
   zero. Only the reader's budget for looking at that padding can still refuse it.
   */
  lemma WrittenFileIsAcceptable(
    unit: Unit, sizes: seq<U64>, alignment: U64, layout: FileLayout, header: Bytes, blocks: seq<BlockData>, budget: U64)
    requires Written(unit, sizes, alignment, layout, header, blocks)
    ensures |layout.offsets| == |blocks| && Reachable(blocks, layout.offsets, 0, HeaderEnd(header))
    ensures var image := FileImage(header, blocks, layout.offsets);
            var ranges := RangesOf(sizes, layout.offsets);
            && |image| == layout.fileSize
            && Acceptable(ranges, HeaderEnd(header), |image|)
            && ZeroOn(image, Uncovered(ranges, HeaderEnd(header), |image|))
            && (UnusedIsFine(ranges, HeaderEnd(header), image, budget)
                <==> |image| - HeaderEnd(header) - TotalSize(ranges) <= budget)
  {
    WrittenIsInOrder(unit, sizes, alignment, layout, header, blocks);
    hide Truthful, Contents, Preamble;
    var offsets := layout.offsets;
    var image := FileImage(header, blocks, offsets);
    var ranges := RangesOf(sizes, offsets);
    TailLength(blocks, offsets, 0, HeaderEnd(header));
    assert |image| == layout.fileSize;
    LayoutIsAcceptable(sizes, Placement(offsets, layout.fileSize), layout.attachmentOffset, alignment, HeaderEnd(header));
    GapsAreZero(header, blocks, offsets, ranges);
    assert ranges[0..] == ranges;
    UnusedTotal(ranges, 0, HeaderEnd(header), |image|);
  }

  lemma {:induction false} LaterStartsLater(sizes: seq<U64>, p: Placement, first: int, alignment: int, i: int, j: int)
    requires 0 < alignment && InOrder(sizes, p, first, alignment) && 0 <= i < j < |sizes|
    ensures p.offsets[i] as int + sizes[i] <= p.offsets[j]
    decreases j
  {
    assert p.offsets[j - 1] as int + sizes[j - 1] <= p.offsets[j];
    if i < j - 1 {
      LaterStartsLater(sizes, p, first, alignment, i, j - 1);
    }
  }

  lemma LayoutIsAcceptable(sizes: seq<U64>, p: Placement, first: int, alignment: int, headerEnd: int)
    requires 0 < alignment && InOrder(sizes, p, first, alignment) && 0 <= headerEnd <= first
    requires forall i | 0 <= i < |sizes| :: sizes[i] > 0
    ensures var ranges := RangesOf(sizes, p.offsets);
            && Acceptable(ranges, headerEnd, p.end) && Acceptable(ranges, 0, p.end) && Sorted(ranges)
            && headerEnd <= p.end && forall k | 0 <= k < |ranges| :: headerEnd <= ranges[k].offset
  {
    var ranges := RangesOf(sizes, p.offsets);
    var last := |sizes| - 1;
    forall i | 0 <= i < |ranges|
      ensures InPayload(ranges[i], headerEnd, p.end) && InPayload(ranges[i], 0, p.end)
    {
      if i < last {
        LaterStartsLater(sizes, p, first, alignment, i, last);
      }
    }
    forall i, j | 0 <= i < j < |ranges|
      ensures Apart(ranges[i], ranges[j]) && ranges[i].offset <= ranges[j].offset
    {
      LaterStartsLater(sizes, p, first, alignment, i, j);
    }
    assert InPayload(ranges[0], headerEnd, p.end);
  }

  lemma GapsAreZero(header: Bytes, blocks: seq<BlockData>, offsets: seq<U64>, ranges: seq<AttachedRange>)
    requires |blocks| == |offsets| == |ranges| && Reachable(blocks, offsets, 0, HeaderEnd(header))
    requires forall k | 0 <= k < |ranges| :: ranges[k].offset == offsets[k] && ranges[k].size == SizeOf(blocks[k])
    ensures var image := FileImage(header, blocks, offsets);
            ZeroOn(image, Uncovered(ranges, HeaderEnd(header), |image|))
  {
    var image := FileImage(header, blocks, offsets);
    var end := HeaderEnd(header);
    var tail := Tail(blocks, offsets, 0, end);
    forall x | x in Uncovered(ranges, end, |image|)
      ensures image[x] == 0
    {
      TailAt(blocks, offsets, 0, end, x);
      assert image[x] == tail[x - end];
      forall k | 0 <= k < |blocks|
        ensures !(0 <= x - offsets[k] < SizeOf(blocks[k]))
      {
        assert !Holds(ranges[k], x);
      }
    }
  }

  lemma WholeContents(block: BlockData)
    requires RightSize(block)
    ensures Contents(block) == if block.InMemory? then block.bytes else block.file
  {
  }

  lemma BlockEndsInside(header: Bytes, blocks: seq<BlockData>, offsets: seq<U64>, k: int)
    requires |blocks| == |offsets| && Reachable(blocks, offsets, 0, HeaderEnd(header)) && 0 <= k < |blocks|
    ensures HeaderEnd(header) <= offsets[k] && offsets[k] + SizeOf(blocks[k]) <= |FileImage(header, blocks, offsets)|
    ensures forall i | 0 <= i < |blocks| && i != k ::
              offsets[i] + SizeOf(blocks[i]) <= offsets[k] || offsets[k] + SizeOf(blocks[k]) <= offsets[i]
  {
    var end := HeaderEnd(header);
    StaysBehind(blocks, offsets, 0, end);
    TailLength(blocks, offsets, 0, end);
    assert k < |blocks| - 1 ==> offsets[k] + SizeOf(blocks[k]) <= offsets[|blocks| - 1];
  }

  lemma ByteIsInPlace(header: Bytes, blocks: seq<BlockData>, offsets: seq<U64>, k: int, j: int)
    requires |blocks| == |offsets| && Reachable(blocks, offsets, 0, HeaderEnd(header))
    requires 0 <= k < |blocks| && 0 <= j < SizeOf(blocks[k])
    ensures var image := FileImage(header, blocks, offsets);
            0 <= offsets[k] + j < |image| && |Contents(blocks[k])| == SizeOf(blocks[k]) && image[offsets[k] + j] == Contents(blocks[k])[j]
  {
    hide Tail, Reachable;
    var end, x := HeaderEnd(header), offsets[k] + j;
    BlockEndsInside(header, blocks, offsets, k);
    TailLength(blocks, offsets, 0, end);
    TailAt(blocks, offsets, 0, end, x);
    assert FileImage(header, blocks, offsets)[x] == Tail(blocks, offsets, 0, end)[x - end];
    forall i | 0 <= i < |blocks| && i != k
      ensures !(0 <= x - offsets[i] < SizeOf(blocks[i]))
    {
    }
  }

  /** Each block lies in the file where the header says it does. */
  lemma BlockIsInPlace(header: Bytes, blocks: seq<BlockData>, offsets: seq<U64>, k: int)
    requires |blocks| == |offsets| && Reachable(blocks, offsets, 0, HeaderEnd(header)) && 0 <= k < |blocks|
    ensures var image := FileImage(header, blocks, offsets);
            HeaderEnd(header) <= offsets[k] && offsets[k] + SizeOf(blocks[k]) <= |image|
            && image[offsets[k]..offsets[k] + SizeOf(blocks[k])] == Contents(blocks[k])
            && (RightSize(blocks[k]) ==> Contents(blocks[k]) == if blocks[k].InMemory? then blocks[k].bytes else blocks[k].file)
  {
    if RightSize(blocks[k]) {
      WholeContents(blocks[k]);
    }
    BlockEndsInside(header, blocks, offsets, k);
    hide Contents, RightSize, FileImage, Reachable;
    forall j | 0 <= j < SizeOf(blocks[k])
      ensures FileImage(header, blocks, offsets)[offsets[k] + j] == Contents(blocks[k])[j]
    {
      ByteIsInPlace(header, blocks, offsets, k, j);
    }
  }
}
