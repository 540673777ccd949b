/** From the caller's pixels through a written file and back into a caller's buffer. */
module EndToEnd {
  import opened Base
  import opened Locations
  import opened Pixels
  import opened Source
  import opened Descriptors
  import opened BlockPipeline
  import opened ImageRead
  import opened Readability
  import opened Emission
  import Layout
  import S = Samples

  /** An image as the writer's caller hands it over; its shape is what the header says of it. */
  datatype Shape = Shape(geometry: Geometry, storage: PixelStorage, order: ByteOrder)

  datatype Picture = Picture(shape: Shape, pixels: Bytes)

  predicate ValidPicture(p: Picture) {
    ValidGeometry(p.shape.geometry) && |p.pixels| == ByteCount(p.shape.geometry)
  }

  /** How the caller asks for the block to be stored. */
  datatype Request = Request(kind: CodecKind, shuffle: bool, options: PrepareOptions)

  /** The libraries of both sides: one codec for every name, the checksum's text and its bytes. */
  datatype Libraries = Libraries(registry: Registry, checksum: Bytes -> string, digest: Bytes -> Bytes)

  ghost predicate Sound(l: Libraries, kind: CodecKind) {
    && (forall k :: l.registry(k).kind == k)
    && RespectsBudget(l.registry(kind)) && (kind != NoCodec ==> Lossless(l.registry(kind)))
  }

  function Prepared(l: Libraries, p: Picture, q: Request): Result<PreparedBlock>
    requires ValidPicture(p) && RespectsBudget(l.registry(q.kind))
  {
    PreparedOf(l.registry(q.kind), p.pixels, SampleSize(p.shape.geometry.format), q.shuffle, q.options, l.checksum)
  }

  function PieceList(l: Libraries, p: Picture, q: Request): seq<Subblock>
    requires ValidPicture(p) && RespectsBudget(l.registry(q.kind)) && Prepared(l, p, q).Ok?
  {
    if l.registry(q.kind).kind == NoCodec then []
    else EncodingOf(l.registry(q.kind), p.pixels, SampleSize(p.shape.geometry.format), q.shuffle, q.options).value.list
  }

  /** The reader's limits let this picture and its block through. */
  predicate Admitted(l: Libraries, p: Picture, q: Request, limits: ImageLimits)
    requires ValidPicture(p) && RespectsBudget(l.registry(q.kind)) && Prepared(l, p, q).Ok?
  {
    && LimitsAllow(p.shape.geometry, limits)
    && ReaderAdmits(q.kind, |p.pixels|, Prepared(l, p, q).value.serializedSize, PieceList(l, p, q), limits.plan)
  }

  /** The plan that the reader makes from an image's attributes. */
  function PlanFrom(
    shape: Shape, location: string, compression: string, subblocks: string, expected: Option<Bytes>, fileSize: U64, limits: ImageLimits
  ): Result<ImagePlan> {
    var at := ParseLocation(location);
    if at.kind != Attachment then Err(UnsupportedFeature)
    else PlanImageRead(shape.geometry, shape.storage, shape.order, compression, subblocks, expected,
                       AttachedBlock(at.offset, at.size), fileSize, limits)
  }

  /** In the file, block `k` is this picture's prepared block. */
  ghost predicate InFile(
    l: Libraries, p: Picture, q: Request, header: Bytes, blocks: seq<BlockData>, offsets: seq<U64>, k: nat)
    requires ValidPicture(p) && RespectsBudget(l.registry(q.kind)) && Prepared(l, p, q).Ok?
  {
    && |blocks| == |offsets| && k < |blocks| && Reachable(blocks, offsets, 0, HeaderEnd(header))
    && Contents(blocks[k]) == EmittedBytes(Prepared(l, p, q).value, p.pixels)
    && |FileImage(header, blocks, offsets)| <= MAX_U64
  }

  predicate LimitsAllow(g: Geometry, limits: ImageLimits) {
    g.channels <= limits.maxChannels && SampleCount(g) <= limits.maxSamples && ByteCount(g) <= limits.maxDecoded
  }

  /** Planning an image and decoding its block is reading the block back, once the image's own limits allow it. */
  lemma PlanReadsBack(
    registry: Registry, p: Picture, compression: string, subblocks: string, expected: Option<Bytes>, offset: U64, emitted: Bytes,
    fileSize: U64, limits: ImageLimits)
    requires ValidGeometry(p.shape.geometry) && (forall k :: registry(k).kind == k) && |emitted| <= MAX_U64
    requires offset + |emitted| <= fileSize
    ensures var g, block := p.shape.geometry, AttachedBlock(offset, |emitted|);
            var plan := PlanImageRead(g, p.shape.storage, p.shape.order, compression, subblocks, expected, block, fileSize, limits);
            var back := ReadBack(registry, compression, subblocks, emitted, Some(ByteCount(g)), limits.plan, SampleSize(g.format));
            && (!LimitsAllow(g, limits) ==> plan == Err(ResourceLimit))
            && (LimitsAllow(g, limits) && plan.Err? ==> back == Err(plan.error))
            && (plan.Ok? ==>
                  && LimitsAllow(g, limits) && ValidPlan(plan.value)
                  && plan.value == ImagePlan(g, p.shape.storage, p.shape.order, block, plan.value.compression, expected)
                  && StoredPixels(registry(plan.value.compression.kind), plan.value, emitted) == back)
  {
    var g := p.shape.geometry;
    CheckedByteCountExact(g);
    PlansAreValid(g, p.shape.storage, p.shape.order, compression, subblocks, expected, AttachedBlock(offset, |emitted|), fileSize, limits);
    hide PlanOf, DecodeBlock, ByteCount, SampleCount, CheckedByteCount, ValidPlan;
  }

  /** The picture's stored bytes are at its place in the file. */
  lemma PictureInPlace(
    l: Libraries, p: Picture, q: Request, header: Bytes, blocks: seq<BlockData>, offsets: seq<U64>, k: nat, limits: PlanLimits)
    requires ValidPicture(p) && Sound(l, q.kind) && Prepared(l, p, q).Ok?
    requires InFile(l, p, q, header, blocks, offsets, k)
    ensures var file := FileImage(header, blocks, offsets);
            var emitted := EmittedBytes(Prepared(l, p, q).value, p.pixels);
            && 0 < |emitted| == Prepared(l, p, q).value.serializedSize
            && offsets[k] + |emitted| <= |file| && file[offsets[k]..offsets[k] + |emitted|] == emitted
  {
    GeometryFacts(p.shape.geometry);
    BlockIsInPlace(header, blocks, offsets, k);
    hide FileImage, Reachable, EmittedBytes, ReadBack, ReaderAdmits, ByteCount, EncodingOf, PreparedOf, SampleCount;
    BlockRoundTrip(l.registry, q.kind, p.pixels, SampleSize(p.shape.geometry.format), q.shuffle, q.options, l.checksum, limits);
  }

  /**
   The reader's plan for a written picture is valid and points at the picture's place in the file,
   and the bytes there decode to the pixels; the plan is refused, or the block not decoded, only if
   a limit of the reader asks for it.
   */
  lemma PlanFindsPicture(l: Libraries, p: Picture, q: Request, expected: Option<Bytes>, limits: ImageLimits, offset: U64, fileSize: U64)
    requires ValidPicture(p) && Sound(l, q.kind) && Prepared(l, p, q).Ok?
    requires offset + Prepared(l, p, q).value.serializedSize <= fileSize
    ensures var block := Prepared(l, p, q).value;
            var emitted := EmittedBytes(block, p.pixels);
            var plan := PlanFrom(p.shape, LocationText(offset, block.serializedSize), block.compression, block.subblocks, expected,
                fileSize, limits);
            && |emitted| == block.serializedSize
            && (plan.Ok? ==>
                  && ValidPlan(plan.value)
                  && plan.value == ImagePlan(p.shape.geometry, p.shape.storage, p.shape.order, AttachedBlock(offset, |emitted|),
                      plan.value.compression, expected))
            && if Admitted(l, p, q, limits)
               then plan.Ok? && StoredPixels(l.registry(plan.value.compression.kind), plan.value, emitted) == Ok(p.pixels)
               else plan == Err(ResourceLimit)
                    || (plan.Ok? && StoredPixels(l.registry(plan.value.compression.kind), plan.value, emitted) == Err(ResourceLimit))
  {
    var block := Prepared(l, p, q).value;
    var emitted := EmittedBytes(block, p.pixels);
    GeometryFacts(p.shape.geometry);
    BlockRoundTrip(l.registry, q.kind, p.pixels, SampleSize(p.shape.geometry.format), q.shuffle, q.options, l.checksum, limits.plan);
    LocationRoundTrip(offset, block.serializedSize);
    hide EmittedBytes, ReadBack, ReaderAdmits, ParseLocation, LocationText, PlanImageRead, ValidPlan, StoredPixels, ByteCount, SampleCount;
    hide EncodingOf, PreparedOf;
    PlanReadsBack(l.registry, p, block.compression, block.subblocks, expected, offset, emitted, fileSize, limits);
  }

  /** With a safe piece width, a reader as generous as the writer admits every picture that its image limits allow. */
  lemma SafeIsAdmitted(l: Libraries, p: Picture, q: Request, bound: Bound, limits: ImageLimits)
    requires ValidPicture(p) && Sound(l, q.kind) && q.kind != NoCodec && Bounded(l.registry(q.kind), bound) && Prepared(l, p, q).Ok?
    requires WidthIsSafe(q.kind, bound, |p.pixels|, q.options) && Generous(limits.plan, |p.pixels|, q.options)
    requires LimitsAllow(p.shape.geometry, limits)
    ensures Admitted(l, p, q, limits)
  {
    var item := SampleSize(p.shape.geometry.format);
    GeometryFacts(p.shape.geometry);
    hide ByteCount, SampleCount, ReadBack, Bounded, PreparedOf, EncodingOf, WidthIsSafe, Generous, EmittedBytes, ReaderAdmits;
    SafeWidthIsReadable(l.registry, q.kind, bound, p.pixels, item, q.shuffle, q.options, l.checksum, limits.plan);
    BlockRoundTrip(l.registry, q.kind, p.pixels, item, q.shuffle, q.options, l.checksum, limits.plan);
  }

  /** Such files are what the writer emits: the layout bounds their size. */
  lemma WrittenIsInFile(
    l: Libraries, p: Picture, q: Request, unit: Layout.Unit, sizes: seq<U64>, alignment: U64, layout: Layout.FileLayout,
    header: Bytes, blocks: seq<BlockData>, k: nat)
    requires ValidPicture(p) && RespectsBudget(l.registry(q.kind)) && Prepared(l, p, q).Ok?
    requires Written(unit, sizes, alignment, layout, header, blocks) && k < |blocks|
    requires Contents(blocks[k]) == EmittedBytes(Prepared(l, p, q).value, p.pixels)
    ensures InFile(l, p, q, header, blocks, layout.offsets, k)
  {
    hide Written, Contents, FileImage, Prepared;
    WrittenFileIsAcceptable(unit, sizes, alignment, layout, header, blocks, 0);
  }

  /**
   A reader on a written file, given what the writer has printed for the picture: if its limits admit
   the picture, it delivers the very pixels, in the storage and byte order that are asked for, over
   whatever portions the source hands the file out in; and it delivers nothing if they do not.
   */
  method ReadWritten(
    source: ByteSource, l: Libraries, shape: Shape, location: string, compression: string, subblocks: string, expected: Option<Bytes>,
    fileSize: U64, limits: ImageLimits, destination: array<Byte>, to: PixelStorage, outputOrder: ByteOrder,
    ghost p: Picture, ghost q: Request, ghost header: Bytes, ghost blocks: seq<BlockData>, ghost offsets: seq<U64>, ghost k: nat)
    returns (r: Result<int>)
    requires ValidPicture(p) && Sound(l, q.kind) && Prepared(l, p, q).Ok? && p.shape == shape
    requires InFile(l, p, q, header, blocks, offsets, k) && Serves(source, FileImage(header, blocks, offsets))
    requires fileSize == |FileImage(header, blocks, offsets)|
    requires var block := Prepared(l, p, q).value;
             && location == LocationText(offsets[k], block.serializedSize)
             && compression == block.compression && subblocks == block.subblocks
    requires expected == None || expected == Some(l.digest(EmittedBytes(Prepared(l, p, q).value, p.pixels)))
    modifies source, destination
    ensures r.Ok? <==> Admitted(l, p, q, limits) && ByteCount(shape.geometry) <= destination.Length
    ensures r.Ok? ==>
              destination[..ByteCount(shape.geometry)]
              == Delivered(shape.geometry, p.pixels, shape.storage, to, outputOrder != shape.order)
    ensures r.Ok? ==> S.SamePicture(shape.geometry, destination[..ByteCount(shape.geometry)], to, outputOrder,
                                    p.pixels, shape.storage, shape.order)
    ensures r.Ok? && to == shape.storage && outputOrder == shape.order ==> destination[..ByteCount(shape.geometry)] == p.pixels
  {
    ghost var emitted := EmittedBytes(Prepared(l, p, q).value, p.pixels);
    PictureInPlace(l, p, q, header, blocks, offsets, k, limits.plan);
    PlanFindsPicture(l, p, q, expected, limits, offsets[k], fileSize);
    SameStorageDelivery(shape.geometry, p.pixels, shape.storage, false);
    S.DeliveredIsSamePicture(shape.geometry, p.pixels, shape.storage, shape.order, to, outputOrder);
    hide S.SamePicture, FileImage, Reachable, Contents, EmittedBytes, Prepared, Admitted, PlanFrom, ValidPlan, StoredPixels, ByteCount, Delivered;
    hide Serves, Supplies, Sound, InFile, ReadBack, Obtained;
    var plan :- PlanFrom(shape, location, compression, subblocks, expected, fileSize, limits);
    ServedBlock(source, FileImage(header, blocks, offsets), plan.block);
    assert l.registry(plan.compression.kind).kind == plan.compression.kind;
    ghost var serialized;
    r, serialized := ReadImageInto(source, Environment(l.registry(plan.compression.kind), l.digest), plan, destination, to, outputOrder,
        emitted);
  }
}
