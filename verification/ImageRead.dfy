/** Reading a whole image into a caller's buffer, by whichever of the reader's paths applies. */
module ImageRead {
  import opened Base
  import opened Pixels
  import opened Source
  import opened Descriptors
  import opened BlockPipeline
  import Mul
  import S = Samples
  import G = DescriptorGrammar

  /** What `plan_image_read` hands to the reading functions. */
  datatype ImagePlan = ImagePlan(
    geometry: Geometry,
    storage: PixelStorage,
    order: ByteOrder,
    block: BlockSource,
    compression: CompressionPlan,
    expectedDigest: Option<Bytes>)

  /** The plan agrees with itself: block size, codec descriptor and geometry describe the same bytes. */
  ghost predicate ValidPlan(plan: ImagePlan) {
    && ValidGeometry(plan.geometry)
    && InSource(plan.block)
    && plan.compression.uncompressedSize == ByteCount(plan.geometry)
    && (if plan.compression.kind == NoCodec then BlockSize(plan.block) == ByteCount(plan.geometry)
        else Faithful(plan.compression, BlockSize(plan.block), Some(ByteCount(plan.geometry)), SampleSize(plan.geometry.format)))
  }

  datatype ImageLimits = ImageLimits(plan: PlanLimits, maxChannels: U64, maxSamples: U64, maxDecoded: U64)

  /** `plan_image_read`, for a two-dimensional image with a known sample format. */
  function PlanImageRead(
    g: Geometry, storage: PixelStorage, order: ByteOrder, compression: string, subblocks: string,
    expectedDigest: Option<Bytes>, block: BlockSource, fileSize: U64, limits: ImageLimits): Result<ImagePlan>
    requires BlockSize(block) <= MAX_U64
  {
    if g.channels > limits.maxChannels then Err(ResourceLimit)
    else if CheckedByteCount(g).None? then Err(Overflow)
    else
      var expected := CheckedByteCount(g).value;
      if SampleCount(g) > limits.maxSamples || expected > limits.maxDecoded then Err(ResourceLimit)
      else
        var p := PlanOf(compression, subblocks, BlockSize(block), Some(expected), limits.plan, SampleSize(g.format));
        if p.Err? then Err(p.error)
        else if block.AttachedBlock? && (block.offset > fileSize || block.size > fileSize - block.offset) then Err(InvalidBlock)
        else Ok(ImagePlan(g, storage, order, block, p.value, expectedDigest))
  }

  /** Every plan the reader makes from a parsed geometry is valid, and its block lies in the file. */
  lemma PlansAreValid(
    g: Geometry, storage: PixelStorage, order: ByteOrder, compression: string, subblocks: string,
    expectedDigest: Option<Bytes>, block: BlockSource, fileSize: U64, limits: ImageLimits)
    requires BlockSize(block) <= MAX_U64 && 0 < g.width && 0 < g.height && 0 < g.channels
    ensures var r := PlanImageRead(g, storage, order, compression, subblocks, expectedDigest, block, fileSize, limits);
            r.Ok? ==> ValidPlan(r.value) && (block.AttachedBlock? ==> block.offset + block.size <= fileSize)
                      && ByteCount(g) <= limits.maxDecoded
  {
    CheckedByteCountExact(g);
    if CheckedByteCount(g).Some? {
      AcceptedPlansAreConsistent(compression, subblocks, BlockSize(block), Some(CheckedByteCount(g).value), limits.plan,
          SampleSize(g.format));
    }
    hide PlanOf, ByteCount, SampleCount, CheckedByteCount;
  }

  /** An image has a plan exactly if it keeps to the limits, its texts spell the plan, and its block ends inside the file. */
  lemma PlansAreExact(
    g: Geometry, storage: PixelStorage, order: ByteOrder, compression: string, subblocks: string,
    expectedDigest: Option<Bytes>, block: BlockSource, fileSize: U64, limits: ImageLimits, plan: ImagePlan)
    requires BlockSize(block) <= MAX_U64 && 0 < g.width && 0 < g.height && 0 < g.channels
    ensures var samples := g.width * g.height * g.channels;
            var size := samples * S.Width(g.format);
            PlanImageRead(g, storage, order, compression, subblocks, expectedDigest, block, fileSize, limits) == Ok(plan)
            <==> && plan == ImagePlan(g, storage, order, block, plan.compression, expectedDigest)
                 && g.channels <= limits.maxChannels && samples <= limits.maxSamples && size <= limits.maxDecoded
                 && G.Spells(compression, subblocks, BlockSize(block), Some(size), limits.plan, S.Width(g.format), plan.compression)
                 && (block.AttachedBlock? ==> block.offset + block.size <= fileSize)
  {
    CheckedByteCountExact(g);
    assert SampleCount(g) == g.width * g.height * g.channels && ByteCount(g) == SampleCount(g) * S.Width(g.format);
    if CheckedByteCount(g).Some? {
      G.PlanIsExact(compression, subblocks, BlockSize(block), CheckedByteCount(g), limits.plan, S.Width(g.format), plan.compression);
    }
    hide PlanOf, ByteCount, SampleCount, CheckedByteCount, G.Spells;
  }

  /** The stored pixels that a serialized block decodes to. */
  function StoredPixels(codec: Codec, plan: ImagePlan, serialized: Bytes): (r: Result<Bytes>)
    requires ValidPlan(plan) && codec.kind == plan.compression.kind && |serialized| == BlockSize(plan.block)
    ensures r.Ok? ==> |r.value| == ByteCount(plan.geometry)
  {
    DecodeBlock(codec, plan.compression, serialized)
  }

  // ---------------------------------------------------------------- in place

  /** `std::reverse` of one component. */
  method ReverseRange(a: array<Byte>, from: int, n: int)
    requires 0 <= from && 0 <= n && from + n <= a.Length
    modifies a
    ensures forall k {:trigger a[k]} | 0 <= k < a.Length ::
              a[k] == old(a[..])[if from <= k < from + n then from + (n - 1 - (k - from)) else k]
  {
    ghost var before := a[..];
    var i := 0;
    while i < n / 2
      invariant 0 <= i <= n / 2
      invariant forall k {:trigger a[k]} | 0 <= k < a.Length && !(from <= k < from + i || from + n - i <= k < from + n) :: a[k] == before[k]
      invariant forall k {:trigger a[k]} | from <= k < from + i || from + n - i <= k < from + n :: a[k] == before[from + (n - 1 - (k - from))]
    {
      a[from + i], a[from + n - 1 - i] := a[from + n - 1 - i], a[from + i];
      i := i + 1;
    }
  }

  /** `swap_byte_order_in_place` on the first `size` bytes. */
  method SwapInPlace(destination: array<Byte>, size: U64, component: U64)
    requires 0 < component && size <= destination.Length
    modifies destination
    ensures destination[..size] == Swapped(old(destination[..size]), component)
    ensures forall k | size <= k < destination.Length :: destination[k] == old(destination[k])
  {
    hide Mirror;
    var count: U64 := size / component;
    Mul.Split(size, component);
    ghost var before := destination[..];
    var done := 0;
    MirrorZero(component);
    while done < count
      invariant 0 <= done <= count && 0 <= done * component <= size
      invariant forall k | 0 <= k < done * component :: 0 <= Mirror(k, component) < size && destination[k] == before[Mirror(k, component)]
      invariant forall k | done * component <= k < destination.Length :: destination[k] == before[k]
    {
      Mul.Index(done, component - 1, count, component);
      var begin: U64 := done * component;
      ReverseRange(destination, begin, component);
      forall k | begin <= k < begin + component
        ensures Mirror(k, component) == begin + (component - 1 - (k - begin))
      {
        MirrorInComponent(done, k - begin, component);
      }
      assert (done + 1) * component == begin + component;
      done := done + 1;
    }
  }

  lemma MirrorZero(component: int)
    requires 0 < component
    ensures 0 * component == 0
  {
  }

  lemma MirrorInComponent(c: int, r: int, component: int)
    requires 0 <= c && 0 <= r < component
    ensures Mirror(c * component + r, component) == c * component + (component - 1 - r)
  {
    Mul.DivMod(c, r, component);
  }

  // ---------------------------------------------------------------- sample by sample

  /** Byte `k` of a sample copy: taken from the sample's bytes, or left as it was. */
  ghost predicate CopiedAt(
    format: SampleFormat, bytes: Bytes, swap: bool, before: Bytes, after: Bytes, input: int, output: int, n: int, k: int)
    requires 0 <= k < |before| == |after|
  {
    if output <= k < output + n then
      var i := input + InputByte(k - output, ComponentSize(format), swap);
      0 <= i < |bytes| && after[k] == bytes[i]
    else after[k] == before[k]
  }

  /** `after` is `before` with `n` bytes of one sample at `output`, taken from `bytes` at `input`. */
  ghost predicate SampleCopied(format: SampleFormat, bytes: Bytes, swap: bool, before: Bytes, after: Bytes, input: int, output: int,
      n: int) {
    |before| == |after| && forall k | 0 <= k < |after| :: CopiedAt(format, bytes, swap, before, after, input, output, n, k)
  }

  /** Copies one sample, byte by byte, turning its components around on request. */
  method CopySample(destination: array<Byte>, to: U64, source: Bytes, from: U64, format: SampleFormat, swap: bool)
    requires to + SampleSize(format) <= destination.Length && from + SampleSize(format) <= |source| <= MAX_U64
    modifies destination
    ensures SampleCopied(format, source, swap, old(destination[..]), destination[..], from, to, SampleSize(format))
  {
    hide InputByte;
    ghost var before := destination[..];
    var size, component := SampleSize(format), ComponentSize(format);
    var byte: U64 := 0;
    while byte < size
      invariant 0 <= byte <= size
      invariant SampleCopied(format, source, swap, before, destination[..], from, to, byte)
    {
      InputByteInSample(byte, format, swap);
      ghost var now := destination[..];
      var inputByte := ByteOfComponent(byte, component, swap);
      destination[to + byte] := source[from + inputByte];
      assert destination[..] == now[to + byte := source[from + inputByte]];
      SampleCopyAdvances(format, source, swap, before, now, from, to, byte);
      byte := byte + 1;
    }
  }

  lemma SampleCopyAdvances(format: SampleFormat, bytes: Bytes, swap: bool, before: Bytes, now: Bytes, input: int, output: int, n: int)
    requires 0 <= n && 0 <= output && output + n < |now|
    requires SampleCopied(format, bytes, swap, before, now, input, output, n)
    requires 0 <= input + InputByte(n, ComponentSize(format), swap) < |bytes|
    ensures SampleCopied(format, bytes, swap, before, now[output + n := bytes[input + InputByte(n, ComponentSize(format), swap)]],
                         input, output, n + 1)
  {
    hide InputByte;
    var after, m := now[output + n := bytes[input + InputByte(n, ComponentSize(format), swap)]], n + 1;
    forall k | 0 <= k < |after|
      ensures CopiedAt(format, bytes, swap, before, after, input, output, m, k)
    {
      assert CopiedAt(format, bytes, swap, before, now, input, output, n, k);
    }
  }

  /** The source's own expression for the input byte. */
  function ByteOfComponent(byte: U64, component: U64, swap: bool): (i: int)
    requires 0 < component
    ensures i == InputByte(byte, component, swap)
  {
    var componentOffset := byte / component * component;
    if swap then componentOffset + component - byte % component - 1 else byte
  }

  /** Stored samples below `done` are where delivery puts them. */
  ghost predicate Through(g: Geometry, stored: Bytes, from: PixelStorage, to: PixelStorage, swap: bool, image: Bytes, done: int)
    requires ValidGeometry(g) && |stored| == ByteCount(g) <= |image|
  {
    forall k {:trigger image[k]} | 0 <= k < ByteCount(g) ::
      Remap(to, from, g, k / SampleSize(g.format)) < done ==> image[k] == Delivered(g, stored, from, to, swap)[k]
  }

  lemma ThroughAll(g: Geometry, stored: Bytes, from: PixelStorage, to: PixelStorage, swap: bool, image: Bytes)
    requires ValidGeometry(g) && |stored| == ByteCount(g) <= |image|
    requires Through(g, stored, from, to, swap, image, SampleCount(g))
    ensures image[..ByteCount(g)] == Delivered(g, stored, from, to, swap)
  {
    hide Delivered;
    forall k | 0 <= k < ByteCount(g)
      ensures image[k] == Delivered(g, stored, from, to, swap)[k]
    {
      Mul.QuotientRange(k, SampleCount(g), SampleSize(g.format));
      RemapInverts(to, from, g, k / SampleSize(g.format));
      assert image[k] == image[k];
    }
  }

  /** Writing stored sample `j` to its place moves the frontier on by one. */
  lemma ThroughNext(g: Geometry, stored: Bytes, from: PixelStorage, to: PixelStorage, swap: bool, before: Bytes, after: Bytes, j: int)
    requires ValidGeometry(g) && |stored| == ByteCount(g) <= |before| == |after| && 0 <= j < SampleCount(g)
    requires Through(g, stored, from, to, swap, before, j)
    requires SampleCopied(g.format, stored, swap, before, after, j * SampleSize(g.format), Remap(from, to, g, j) * SampleSize(g.format),
                          SampleSize(g.format))
    ensures Through(g, stored, from, to, swap, after, j + 1)
  {
    hide Delivered, InputByte, Remap, ByteCount;
    var size := SampleSize(g.format);
    var target := Remap(from, to, g, j);
    forall k | 0 <= k < ByteCount(g) && Remap(to, from, g, k / size) < j + 1
      ensures after[k] == Delivered(g, stored, from, to, swap)[k]
    {
      Mul.Split(k, size);
      SampleOfByte(g, from, to, j, k);
      assert CopiedAt(g.format, stored, swap, before, after, j * size, target * size, size, k);
      if k / size == target {
        DeliveredAt(g, stored, from, to, swap, k);
      } else {
        OtherSample(target, k, size);
        assert before[k] == after[k];
      }
    }
  }

  lemma SampleOfByte(g: Geometry, from: PixelStorage, to: PixelStorage, j: int, k: int)
    requires ValidGeometry(g) && 0 <= k < ByteCount(g) && 0 <= j < SampleCount(g)
    ensures Remap(to, from, g, k / SampleSize(g.format)) == j <==> k / SampleSize(g.format) == Remap(from, to, g, j)
  {
    Mul.QuotientRange(k, SampleCount(g), SampleSize(g.format));
    RemapInverts(to, from, g, k / SampleSize(g.format));
    RemapInverts(from, to, g, j);
  }

  lemma OtherSample(target: int, k: int, size: int)
    requires 0 < size && 0 <= k && k / size != target
    ensures !(target * size <= k < target * size + size)
  {
    if target * size <= k < target * size + size {
      Mul.DivMod(target, k - target * size, size);
    }
  }

  lemma SampleInRange(g: Geometry, from: PixelStorage, to: PixelStorage, j: int)
    requires ValidGeometry(g) && 0 <= j < SampleCount(g)
    ensures var size := SampleSize(g.format);
            && 0 <= j * size && j * size + size <= ByteCount(g)
            && 0 <= Remap(from, to, g, j) * size && Remap(from, to, g, j) * size + size <= ByteCount(g)
  {
    var size := SampleSize(g.format);
    RemapInverts(from, to, g, j);
    Mul.Index(j, size - 1, SampleCount(g), size);
    Mul.Index(Remap(from, to, g, j), size - 1, SampleCount(g), size);
  }

  /** The front of `staging` holds the stored bytes from sample `first` on. */
  ghost predicate Staged(g: Geometry, staging: Bytes, stored: Bytes, first: int, n: int) {
    var size := SampleSize(g.format);
    && n * size <= |staging|
    && forall k {:trigger staging[k]} | 0 <= k < n * size :: 0 <= first * size + k < |stored| && staging[k] == stored[first * size + k]
  }

  /** Moves one stored sample from the staging bytes to its place. */
  method PlaceSample(
    g: Geometry, staging: Bytes, ghost stored: Bytes, from: PixelStorage, to: PixelStorage, swap: bool,
    destination: array<Byte>, first: U64, ghost n: int, local: U64)
    requires ValidGeometry(g) && |stored| == ByteCount(g) <= destination.Length && local < n && first + n <= SampleCount(g)
    requires |staging| <= MAX_U64 && Staged(g, staging, stored, first, n)
    requires Through(g, stored, from, to, swap, destination[..], first + local)
    modifies destination
    ensures Through(g, stored, from, to, swap, destination[..], first + local + 1)
    ensures forall k | ByteCount(g) <= k < destination.Length :: destination[k] == old(destination[k])
  {
    hide Through, ByteCount, SampleCount, PixelCount, InputByte, ValidGeometry, Staged, SampleCopied;
    var size := SampleSize(g.format);
    GeometryFacts(g);
    var pixelCount := PixelCountOf(g);
    ghost var before := destination[..];
    var sourceIndex: U64 := first + local;
    SampleInRange(g, from, to, sourceIndex);
    SampleOfCoordinates(from, g, sourceIndex);
    StagedSample(g, staging, stored, first, local, n);
    var channel := if from == Planar then sourceIndex / pixelCount else sourceIndex % g.channels;
    var pixel := if from == Planar then sourceIndex % pixelCount else sourceIndex / g.channels;
    var outputIndex := if to == Planar then channel * pixelCount + pixel else pixel * g.channels + channel;
    assert outputIndex == Remap(from, to, g, sourceIndex);
    hide Remap;
    var inputOffset: U64 := local * size;
    var outputOffset: U64 := outputIndex * size;
    CopySample(destination, outputOffset, staging, inputOffset, g.format, swap);
    CopyLeavesRest(g.format, staging, swap, before, destination[..], inputOffset, outputOffset, size, ByteCount(g));
    CopiedFromStaging(g, staging, stored, swap, before, destination[..], first, local, n, outputOffset);
    ThroughNext(g, stored, from, to, swap, before, destination[..], sourceIndex);
  }

  /** Moves stored samples `first` to `first + n` - 1 from the staging bytes to their places. */
  method PlaceSamples(
    g: Geometry, staging: Bytes, ghost stored: Bytes, from: PixelStorage, to: PixelStorage, swap: bool,
    destination: array<Byte>, first: U64, n: U64)
    requires ValidGeometry(g) && |stored| == ByteCount(g) <= destination.Length && first + n <= SampleCount(g)
    requires |staging| <= MAX_U64 && Staged(g, staging, stored, first, n)
    requires Through(g, stored, from, to, swap, destination[..], first)
    modifies destination
    ensures Through(g, stored, from, to, swap, destination[..], first + n)
    ensures forall k | ByteCount(g) <= k < destination.Length :: destination[k] == old(destination[k])
  {
    hide Through, ByteCount, SampleCount, ValidGeometry, Staged;
    GeometryFacts(g);
    var local: U64 := 0;
    while local < n
      invariant 0 <= local <= n
      invariant Through(g, stored, from, to, swap, destination[..], first + local)
      invariant forall k | ByteCount(g) <= k < destination.Length :: destination[k] == old(destination[k])
    {
      PlaceSample(g, staging, stored, from, to, swap, destination, first, n, local);
      local := local + 1;
    }
  }

  function PixelCountOf(g: Geometry): (n: U64)
    requires ValidGeometry(g)
    ensures n == PixelCount(g)
  {
    GeometryFacts(g);
    SampleCount(g) / g.channels
  }

  lemma StagedSample(g: Geometry, staging: Bytes, stored: Bytes, first: int, local: int, n: int)
    requires 0 <= first && 0 <= local < n
    requires Staged(g, staging, stored, first, n)
    ensures var size := SampleSize(g.format);
            && 0 <= local * size && local * size + size <= |staging|
  {
    Mul.Index(local, SampleSize(g.format) - 1, n, SampleSize(g.format));
  }

  lemma CopiedFromStaging(
    g: Geometry, staging: Bytes, stored: Bytes, swap: bool, before: Bytes, after: Bytes, first: int, local: int, n: int, output: int)
    requires 0 <= first && 0 <= local < n
    requires Staged(g, staging, stored, first, n)
    requires SampleCopied(g.format, staging, swap, before, after, local * SampleSize(g.format), output, SampleSize(g.format))
    ensures SampleCopied(g.format, stored, swap, before, after, (first + local) * SampleSize(g.format), output, SampleSize(g.format))
  {
    hide InputByte;
    var size := SampleSize(g.format);
    var start := (first + local) * size;
    assert start == first * size + local * size;
    forall k | 0 <= k < |after|
      ensures CopiedAt(g.format, stored, swap, before, after, start, output, size, k)
    {
      assert CopiedAt(g.format, staging, swap, before, after, local * size, output, size, k);
      if output <= k < output + size {
        InputByteInSample(k - output, g.format, swap);
        var b := InputByte(k - output, ComponentSize(g.format), swap);
        Mul.Index(local, b, n, size);
        assert staging[local * size + b] == after[k];
      }
    }
  }

  lemma CopyLeavesRest(format: SampleFormat, bytes: Bytes, swap: bool, before: Bytes, after: Bytes, input: int, output: int, n: int,
      from: int)
    requires SampleCopied(format, bytes, swap, before, after, input, output, n) && output + n <= from && 0 <= from
    ensures |before| == |after| && forall k | from <= k < |after| :: after[k] == before[k]
  {
    hide InputByte;
    forall k | from <= k < |after|
      ensures after[k] == before[k]
    {
      assert CopiedAt(format, bytes, swap, before, after, input, output, n, k);
    }
  }

  /** Before the first sample is placed, nothing is claimed of the destination. */
  lemma ThroughNothing(g: Geometry, stored: Bytes, from: PixelStorage, to: PixelStorage, swap: bool, image: Bytes)
    requires ValidGeometry(g) && |stored| == ByteCount(g) <= |image|
    ensures Through(g, stored, from, to, swap, image, 0)
  {
    hide Delivered, Remap;
    forall k | 0 <= k < ByteCount(g)
      ensures Remap(to, from, g, k / SampleSize(g.format)) >= 0
    {
      Mul.QuotientRange(k, SampleCount(g), SampleSize(g.format));
      RemapInverts(to, from, g, k / SampleSize(g.format));
    }
  }

  /** `transform_pixel_storage_from_buffer`: the whole block is at hand. */
  method TransformFromBuffer(
    g: Geometry, stored: Bytes, from: PixelStorage, to: PixelStorage, swap: bool, destination: array<Byte>)
    requires ValidGeometry(g) && |stored| == ByteCount(g) <= destination.Length
    modifies destination
    ensures destination[..ByteCount(g)] == Delivered(g, stored, from, to, swap)
    ensures forall k | ByteCount(g) <= k < destination.Length :: destination[k] == old(destination[k])
  {
    hide Through, Delivered;
    GeometryFacts(g);
    ThroughNothing(g, stored, from, to, swap, destination[..]);
    PlaceSamples(g, stored, stored, from, to, swap, destination, 0, SampleCount(g));
    ThroughAll(g, stored, from, to, swap, destination[..]);
  }

  /** A chunk read from the block is the staging area of its own samples. */
  lemma ChunkIsStaged(g: Geometry, staging: Bytes, stored: Bytes, first: int, n: int)
    requires 0 <= first && 0 <= n && n * SampleSize(g.format) <= |staging|
    requires 0 <= first * SampleSize(g.format) && first * SampleSize(g.format) + n * SampleSize(g.format) <= |stored|
    requires staging[..n * SampleSize(g.format)]
          == stored[first * SampleSize(g.format)..first * SampleSize(g.format) + n * SampleSize(g.format)]
    ensures Staged(g, staging, stored, first, n)
  {
    var size := SampleSize(g.format);
    var from, count := first * size, n * size;
    forall k | 0 <= k < count
      ensures staging[k] == stored[from + k]
    {
      assert staging[k] == staging[..count][k];
    }
  }

  const TRANSFORM_CHUNK := 8 * 1024 * 1024

  lemma ChunkBytes(g: Geometry, first: int, n: int)
    requires ValidGeometry(g) && 0 <= first && 0 <= n && first + n <= SampleCount(g)
    ensures var size := SampleSize(g.format);
            && 0 <= first * size && 0 <= n * size && first * size + n * size <= ByteCount(g)
            && first * size + n * size == (first + n) * size
  {
    Mul.Monotone(first + n, SampleCount(g), SampleSize(g.format));
    Mul.Monotone(0, first, SampleSize(g.format));
    Mul.Monotone(0, n, SampleSize(g.format));
  }

  /** What has been read of a block, completed with zeros. */
  function Padded(g: Geometry, got: Bytes): (stored: Bytes)
    requires ValidGeometry(g) && |got| <= ByteCount(g)
    ensures |stored| == ByteCount(g) && stored[..|got|] == got
  {
    got + seq(ByteCount(g) - |got|, _ => 0)
  }

  /** The samples below `done` depend on their own stored bytes only. */
  lemma ThroughDepends(
    g: Geometry, a: Bytes, b: Bytes, from: PixelStorage, to: PixelStorage, swap: bool, image: Bytes, done: int)
    requires ValidGeometry(g) && |a| == |b| == ByteCount(g) <= |image| && 0 <= done <= SampleCount(g)
    requires 0 <= done * SampleSize(g.format) <= |a|
    requires a[..done * SampleSize(g.format)] == b[..done * SampleSize(g.format)]
    requires Through(g, a, from, to, swap, image, done)
    ensures Through(g, b, from, to, swap, image, done)
  {
    hide Delivered, Remap, InputByte, ByteCount;
    var size := SampleSize(g.format);
    forall k | 0 <= k < ByteCount(g) && Remap(to, from, g, k / size) < done
      ensures image[k] == Delivered(g, b, from, to, swap)[k]
    {
      DeliveredAt(g, a, from, to, swap, k);
      DeliveredAt(g, b, from, to, swap, k);
      assert image[k] == Delivered(g, a, from, to, swap)[k];
      StoredByteBelow(g, from, to, swap, k, done);
      var i := StoredByte(g, from, to, swap, k);
      assert a[..done * size][i] == b[..done * size][i];
    }
  }

  lemma StoredByteBelow(g: Geometry, from: PixelStorage, to: PixelStorage, swap: bool, k: int, done: int)
    requires ValidGeometry(g) && 0 <= k < ByteCount(g)
    requires Remap(to, from, g, k / SampleSize(g.format)) < done
    ensures 0 <= StoredByte(g, from, to, swap, k) < done * SampleSize(g.format)
  {
    var size := SampleSize(g.format);
    Mul.QuotientRange(k, SampleCount(g), size);
    RemapInverts(to, from, g, k / size);
    InputByteInSample(k % size, g.format, swap);
    Mul.Index(Remap(to, from, g, k / size), InputByte(k % size, ComponentSize(g.format), swap), done, size);
  }

  /** One pass of the chunked transform: reads `n` samples into the staging buffer and places them. */
  method TransformChunk(
    source: ByteSource, plan: ImagePlan, staging: array<Byte>, destination: array<Byte>, to: PixelStorage, swap: bool,
    first: U64, n: U64, ghost got: Bytes, ghost data: Bytes) returns (r: Result<int>, ghost next: Bytes)
    requires ValidPlan(plan) && plan.compression.kind == NoCodec && ByteCount(plan.geometry) <= destination.Length
    requires staging != destination && staging.Length == TRANSFORM_CHUNK && n * SampleSize(plan.geometry.format) <= TRANSFORM_CHUNK
    requires first + n <= SampleCount(plan.geometry)
    requires |got| == first * SampleSize(plan.geometry.format) <= ByteCount(plan.geometry)
    requires Through(plan.geometry, Padded(plan.geometry, got), plan.storage, to, swap, destination[..], first)
    modifies source, staging, destination
    ensures forall k | ByteCount(plan.geometry) <= k < destination.Length :: destination[k] == old(destination[k])
    ensures r.Ok? ==>
              && |next| == (first + n) * SampleSize(plan.geometry.format) <= ByteCount(plan.geometry)
              && Through(plan.geometry, Padded(plan.geometry, next), plan.storage, to, swap, destination[..], first + n)
              && |got| <= |next|
              && next[..|got|] == got
              && |next| <= BlockSize(plan.block)
              && ChunkObtained(plan.block, |got|, old(source.transcript), source.transcript, next[|got|..])
    ensures Supplies(source, plan.block, data) && got == data[..first * SampleSize(plan.geometry.format)] ==>
              r.Ok? && next == data[..(first + n) * SampleSize(plan.geometry.format)]
  {
    hide Through, Supplies, Padded, Staged, ByteCount, SampleCount, ValidGeometry, ChunkObtained;
    var g := plan.geometry;
    var size := SampleSize(g.format);
    next := [];
    ChunkBytes(g, first, n);
    GeometryFacts(g);
    var chunkBytes: U64 := n * size;
    var read :- ReadChunk(source, plan.block, first * size, staging, 0, chunkBytes, data);
    next := got + staging[..chunkBytes];
    PaddedAgrees(g, got, staging[..chunkBytes]);
    ThroughDepends(g, Padded(g, got), Padded(g, next), plan.storage, to, swap, destination[..], first);
    ChunkIsStaged(g, staging[..], Padded(g, next), first, n);
    PlaceSamples(g, staging[..], Padded(g, next), plan.storage, to, swap, destination, first, n);
    return Ok(read), next;
  }

  /**
   `transform_pixel_storage`: the block passes through a bounded staging buffer. Whatever the source
   answers, the destination holds the delivery of exactly the bytes that were read.
   */
  method TransformChunked(
    source: ByteSource, plan: ImagePlan, destination: array<Byte>, to: PixelStorage, swap: bool, ghost data: Bytes)
    returns (r: Result<int>, ghost stored: Bytes)
    requires ValidPlan(plan) && plan.compression.kind == NoCodec && ByteCount(plan.geometry) <= destination.Length
    modifies source, destination
    ensures forall k | ByteCount(plan.geometry) <= k < destination.Length :: destination[k] == old(destination[k])
    ensures r.Ok? ==> |stored| == ByteCount(plan.geometry)
                      && destination[..ByteCount(plan.geometry)] == Delivered(plan.geometry, stored, plan.storage, to, swap)
                      && Obtained(plan.block, old(source.transcript), source.transcript, stored)
    ensures Supplies(source, plan.block, data) ==> r.Ok? && stored == data
  {
    hide Through, Delivered, Supplies, ByteCount, SampleCount, Padded, ValidPlan, Obtained, ChunkObtained;
    PlanFacts(plan);
    ObtainedNothing(plan.block, source.transcript);
    var g := plan.geometry;
    var size := SampleSize(g.format);
    var samples: U64 := SampleCount(g);
    var maximum: U64 := TRANSFORM_CHUNK / size;
    Mul.Split(TRANSFORM_CHUNK, size);
    var staging := new Byte[TRANSFORM_CHUNK](_ => 0);
    ghost var faithful := Supplies(source, plan.block, data);
    if faithful {
      SuppliesSize(source, plan.block, data);
    }
    stored := [];
    var first: U64 := 0;
    ThroughNothing(g, Padded(g, stored), plan.storage, to, swap, destination[..]);
    while first < samples
      invariant 0 <= first <= samples && |stored| == first * size <= ByteCount(g)
      invariant Through(g, Padded(g, stored), plan.storage, to, swap, destination[..], first)
      invariant Obtained(plan.block, old(source.transcript), source.transcript, stored)
      invariant faithful ==> stored == data[..first * size]
      invariant forall k | ByteCount(g) <= k < destination.Length :: destination[k] == old(destination[k])
    {
      var n := Min(maximum, samples - first);
      Mul.Monotone(n, maximum, size);
      ghost var heard, got := source.transcript, stored;
      r, stored := TransformChunk(source, plan, staging, destination, to, swap, first, n, stored, data);
      if r.Err? {
        return;
      }
      ObtainedNext(plan.block, old(source.transcript), heard, source.transcript, got, stored[|got|..]);
      assert got + stored[|got|..] == stored;
      first := first + n;
    }
    PaddedWhole(g, stored);
    ThroughAll(g, stored, plan.storage, to, swap, destination[..]);
    return Ok(plan.compression.uncompressedSize), stored;
  }

  lemma PlanFacts(plan: ImagePlan)
    requires ValidPlan(plan)
    ensures ValidGeometry(plan.geometry) && InSource(plan.block)
    ensures 0 < PixelCount(plan.geometry) <= SampleCount(plan.geometry) <= ByteCount(plan.geometry) <= MAX_U64
    ensures plan.compression.kind == NoCodec ==> BlockSize(plan.block) == ByteCount(plan.geometry)
  {
    GeometryFacts(plan.geometry);
  }

  lemma PaddedWhole(g: Geometry, got: Bytes)
    requires ValidGeometry(g) && |got| == SampleCount(g) * SampleSize(g.format)
    ensures |got| == ByteCount(g) && Padded(g, got) == got
  {
  }

  lemma PaddedAgrees(g: Geometry, got: Bytes, piece: Bytes)
    requires ValidGeometry(g) && |got| + |piece| <= ByteCount(g)
    ensures Padded(g, got)[..|got|] == Padded(g, got + piece)[..|got|]
    ensures Padded(g, got + piece)[|got|..|got| + |piece|] == piece
  {
  }

  // ---------------------------------------------------------------- read_image_into

  predicate DigestMatches(plan: ImagePlan, digest: Bytes -> Bytes, serialized: Bytes) {
    plan.expectedDigest.Some? ==> digest(serialized) == plan.expectedDigest.value
  }

  /** What a caller gets for a block with these serialized bytes. */
  ghost predicate Delivers(
    codec: Codec, plan: ImagePlan, digest: Bytes -> Bytes, serialized: Bytes, to: PixelStorage, swap: bool, image: Bytes)
    requires ValidPlan(plan) && codec.kind == plan.compression.kind
  {
    && |serialized| == BlockSize(plan.block)
    && DigestMatches(plan, digest, serialized)
    && StoredPixels(codec, plan, serialized).Ok?
    && image == Delivered(plan.geometry, StoredPixels(codec, plan, serialized).value, plan.storage, to, swap)
  }

  /**
   Every sample of the image, read in the byte order that was asked for, has the value of the stored one
   in the order of the file: the number itself, or the real and the imaginary part.
   */
  ghost predicate Pictures(codec: Codec, plan: ImagePlan, serialized: Bytes, to: PixelStorage, outputOrder: ByteOrder, image: Bytes)
    requires ValidPlan(plan) && codec.kind == plan.compression.kind
  {
    && |serialized| == BlockSize(plan.block) && StoredPixels(codec, plan, serialized).Ok?
    && S.SamePicture(plan.geometry, image, to, outputOrder, StoredPixels(codec, plan, serialized).value, plan.storage, plan.order)
  }

  lemma DeliversPicture(
    codec: Codec, plan: ImagePlan, digest: Bytes -> Bytes, serialized: Bytes, to: PixelStorage, outputOrder: ByteOrder, image: Bytes)
    requires ValidPlan(plan) && codec.kind == plan.compression.kind
    requires Delivers(codec, plan, digest, serialized, to, outputOrder != plan.order, image)
    ensures Pictures(codec, plan, serialized, to, outputOrder, image)
  {
    hide Delivered, StoredPixels, ByteCount, S.SamePicture;
    S.DeliveredIsSamePicture(plan.geometry, StoredPixels(codec, plan, serialized).value, plan.storage, plan.order, to, outputOrder);
  }

  /** The last step of the same-storage paths: turn components around, unless samples are single bytes. */
  method FinishInPlace(g: Geometry, ghost stored: Bytes, storage: PixelStorage, swap: bool, destination: array<Byte>)
    requires ValidGeometry(g) && |stored| == ByteCount(g) <= destination.Length
    requires destination[..ByteCount(g)] == stored
    modifies destination
    ensures destination[..ByteCount(g)] == Delivered(g, stored, storage, storage, swap)
    ensures forall k | ByteCount(g) <= k < destination.Length :: destination[k] == old(destination[k])
  {
    hide Delivered, Swapped;
    GeometryFacts(g);
    SameStorageDelivery(g, stored, storage, swap);
    if SampleSize(g.format) > 1 && swap {
      SwapInPlace(destination, ByteCount(g), ComponentSize(g.format));
    } else if swap {
      SingleByteSwap(stored);
    }
  }

  /** Copies a buffer to the front of the destination. */
  method CopyFront(bytes: Bytes, destination: array<Byte>)
    requires |bytes| <= destination.Length
    modifies destination
    ensures destination[..|bytes|] == bytes
    ensures forall k | |bytes| <= k < destination.Length :: destination[k] == old(destination[k])
  {
    forall k | 0 <= k < |bytes| {
      destination[k] := bytes[k];
    }
  }

  lemma UncompressedPixels(codec: Codec, plan: ImagePlan, serialized: Bytes)
    requires ValidPlan(plan) && codec.kind == plan.compression.kind == NoCodec && |serialized| == BlockSize(plan.block)
    ensures StoredPixels(codec, plan, serialized) == Ok(serialized)
  {
  }

  /** The staged paths, once the serialized block is in memory and its checksum has been verified. */
  method DeliverSerialized(
    codec: Codec, plan: ImagePlan, serialized: Bytes, destination: array<Byte>, to: PixelStorage, swap: bool) returns (r: Result<int>)
    requires ValidPlan(plan) && codec.kind == plan.compression.kind
    requires |serialized| == BlockSize(plan.block) && ByteCount(plan.geometry) <= destination.Length
    modifies destination
    ensures r.Ok? <==> StoredPixels(codec, plan, serialized).Ok?
    ensures r.Ok? ==>
              destination[..ByteCount(plan.geometry)]
              == Delivered(plan.geometry, StoredPixels(codec, plan, serialized).value, plan.storage, to, swap)
    ensures forall k | ByteCount(plan.geometry) <= k < destination.Length :: destination[k] == old(destination[k])
  {
    hide Delivered, DecodedStream, ByteCount, Faithful;
    var g := plan.geometry;
    var expected: U64 := plan.compression.uncompressedSize;
    CompressedPlanFacts(plan);
    if plan.compression.kind != NoCodec {
      if to != plan.storage {
        var pixels := new Byte[expected](_ => 0);
        var decoded := DecodeCompressedBlock(codec, serialized, plan.compression, pixels, expected);
        if decoded.Err? {
          return Err(decoded.error);
        }
        assert pixels[..] == pixels[..expected];
        TransformFromBuffer(g, pixels[..], plan.storage, to, swap, destination);
        return Ok(expected);
      }
      var decoded := DecodeCompressedBlock(codec, serialized, plan.compression, destination, expected);
      if decoded.Err? {
        return Err(decoded.error);
      }
    } else if to != plan.storage {
      UncompressedPixels(codec, plan, serialized);
      TransformFromBuffer(g, serialized, plan.storage, to, swap, destination);
      return Ok(expected);
    } else {
      UncompressedPixels(codec, plan, serialized);
      CopyFront(serialized, destination);
    }
    FinishInPlace(g, StoredPixels(codec, plan, serialized).value, to, swap, destination);
    return Ok(expected);
  }

  lemma CompressedPlanFacts(plan: ImagePlan)
    requires ValidPlan(plan)
    ensures ValidGeometry(plan.geometry) && plan.compression.uncompressedSize == ByteCount(plan.geometry)
    ensures BlockSize(plan.block) <= MAX_U64
    ensures plan.compression.kind != NoCodec ==>
              Conserves(plan.compression, BlockSize(plan.block)) && plan.compression.itemSize > 0
    ensures plan.compression.kind == NoCodec ==> BlockSize(plan.block) == ByteCount(plan.geometry)
  {
  }

  /** An uncompressed block in the wanted storage goes straight into the destination. */
  method CopyAndFinish(source: ByteSource, plan: ImagePlan, destination: array<Byte>, swap: bool, ghost data: Bytes)
    returns (r: Result<int>, ghost serialized: Bytes)
    requires ValidPlan(plan) && plan.compression.kind == NoCodec && ByteCount(plan.geometry) <= destination.Length
    modifies source, destination
    ensures forall k | ByteCount(plan.geometry) <= k < destination.Length :: destination[k] == old(destination[k])
    ensures r.Ok? ==>
              && r.value == ByteCount(plan.geometry) == |serialized|
              && Obtained(plan.block, old(source.transcript), source.transcript, serialized)
              && destination[..ByteCount(plan.geometry)] == Delivered(plan.geometry, serialized, plan.storage, plan.storage, swap)
    ensures Supplies(source, plan.block, data) ==> r.Ok? && serialized == data
  {
    hide Delivered, ByteCount, Supplies, ValidPlan, Obtained;
    CompressedPlanFacts(plan);
    PlanFacts(plan);
    ghost var expected := ByteCount(plan.geometry);
    serialized := [];
    var copied := CopySerialized(source, plan.block, destination, data);
    assert forall k | expected <= k < destination.Length :: destination[k] == destination[expected..][k - expected];
    if copied.Err? {
      return copied, serialized;
    }
    serialized := destination[..expected];
    FinishInPlace(plan.geometry, serialized, plan.storage, swap, destination);
    return Ok(plan.compression.uncompressedSize), serialized;
  }

  /** What the reader needs beside the document to deliver an image. */
  datatype Environment = Environment(codec: Codec, digest: Bytes -> Bytes)

  /**
   `read_image_into`. Whichever path is taken, and whatever the source answers, success means that
   the front of the destination is the delivery of one serialized block that was actually read and
   whose digest matches; the rest of the destination is untouched. A source that supplies a block
   makes the outcome depend on that block alone.
   */
  method ReadImageInto(
    source: ByteSource, env: Environment, plan: ImagePlan, destination: array<Byte>, to: PixelStorage, outputOrder: ByteOrder,
    ghost data: Bytes) returns (r: Result<int>, ghost serialized: Bytes)
    requires ValidPlan(plan) && env.codec.kind == plan.compression.kind
    modifies source, destination
    ensures r.Ok? ==> r.value == ByteCount(plan.geometry) <= destination.Length
    ensures r.Ok? ==> Delivers(env.codec, plan, env.digest, serialized, to, outputOrder != plan.order,
                               destination[..ByteCount(plan.geometry)])
                      && Obtained(plan.block, old(source.transcript), source.transcript, serialized)
    ensures r.Ok? ==> Pictures(env.codec, plan, serialized, to, outputOrder, destination[..ByteCount(plan.geometry)])
    ensures forall k | ByteCount(plan.geometry) <= k < destination.Length :: destination[k] == old(destination[k])
    ensures Supplies(source, plan.block, data) && ByteCount(plan.geometry) <= destination.Length ==>
              && |data| == BlockSize(plan.block)
              && (r.Ok? <==> DigestMatches(plan, env.digest, data) && StoredPixels(env.codec, plan, data).Ok?)
              && (r.Ok? ==> serialized == data)
    ensures ByteCount(plan.geometry) > destination.Length ==> r == Err(InvalidArgument)
  {
    hide Delivered, StoredPixels, ByteCount, Supplies, ValidPlan, Obtained, Pictures;
    CompressedPlanFacts(plan);
    PlanFacts(plan);
    var g, swap := plan.geometry, outputOrder != plan.order;
    var expected: U64 := plan.compression.uncompressedSize;
    ghost var faithful := Supplies(source, plan.block, data);
    if faithful {
      SuppliesSize(source, plan.block, data);
    }
    serialized := [];
    if destination.Length < expected {
      return Err(InvalidArgument), serialized;
    }
    if plan.compression.kind != NoCodec || plan.expectedDigest.Some? {
      var buffer := new Byte[BlockSize(plan.block)](_ => 0);
      var copied := CopySerialized(source, plan.block, buffer, data);
      if copied.Err? {
        return Err(copied.error), serialized;
      }
      assert buffer[..BlockSize(plan.block)] == buffer[..];
      serialized := buffer[..];
      if plan.expectedDigest.Some? && env.digest(buffer[..]) != plan.expectedDigest.value {
        return Err(ChecksumMismatch), serialized;
      }
      r := DeliverSerialized(env.codec, plan, buffer[..], destination, to, swap);
      if r.Ok? {
        DeliversPicture(env.codec, plan, env.digest, serialized, to, outputOrder, destination[..ByteCount(g)]);
      }
      return (if r.Ok? then Ok(expected) else r), serialized;
    }
    if faithful {
      UncompressedPixels(env.codec, plan, data);
    }
    if to != plan.storage {
      r, serialized := TransformChunked(source, plan, destination, to, swap, data);
      if r.Ok? {
        UncompressedPixels(env.codec, plan, serialized);
        DeliversPicture(env.codec, plan, env.digest, serialized, to, outputOrder, destination[..ByteCount(g)]);
      }
      return (if r.Ok? then Ok(expected) else r), serialized;
    }
    r, serialized := CopyAndFinish(source, plan, destination, swap, data);
    if r.Ok? {
      UncompressedPixels(env.codec, plan, serialized);
      DeliversPicture(env.codec, plan, env.digest, serialized, to, outputOrder, destination[..ByteCount(g)]);
    }
  }

  /** Every path for every storage and order delivers the same pixels: convert one result and get the other. */
  lemma PathsAgree(
    codec: Codec, plan: ImagePlan, digest: Bytes -> Bytes, serialized: Bytes, to: PixelStorage, swap: bool, image: Bytes, other: Bytes)
    requires ValidPlan(plan) && codec.kind == plan.compression.kind
    requires Delivers(codec, plan, digest, serialized, to, swap, image)
    requires Delivers(codec, plan, digest, serialized, plan.storage, false, other)
    ensures |image| == |other| == ByteCount(plan.geometry)
    ensures Delivered(plan.geometry, image, to, plan.storage, swap) == other
    ensures image == Delivered(plan.geometry, other, plan.storage, to, swap)
  {
    var stored := StoredPixels(codec, plan, serialized).value;
    DeliveryInverts(plan.geometry, stored, plan.storage, to, swap);
    SameStorageDelivery(plan.geometry, stored, plan.storage, false);
    hide StoredPixels, Delivered, ByteCount;
  }
}
