/** `read_image_rows`: one row at a time to a sink, through one row buffer that is refilled and turned around in place. */
module RowStream {
  import opened Base
  import opened Pixels
  import opened Source
  import opened Descriptors
  import opened BlockPipeline
  import opened ImageRead
  import opened Rows
  import Mul
  import S = Samples

  /** The caller's sink sees every row offered to it, and may refuse any of them. */
  class RowSink {
    const answer: int -> Option<ErrorCode>
    var rows: seq<RowView>

    constructor (answer: int -> Option<ErrorCode>)
      ensures this.answer == answer && rows == []
    {
      this.answer := answer;
      rows := [];
    }

    method Consume(view: RowView) returns (r: Option<ErrorCode>)
      modifies this
      ensures rows == old(rows) + [view] && r == answer(|old(rows)|)
    {
      r := answer(|rows|);
      rows := rows + [view];
    }
  }

  /** A sink that takes every row. */
  ghost predicate Willing(sink: RowSink) {
    forall k :: sink.answer(k).None?
  }

  /** Row `n` after the first `start` is the one that the stored bytes `fed` call for. */
  ghost predicate RowMatches(plan: ImagePlan, order: ByteOrder, start: int, rows: seq<RowView>, fed: Bytes, n: int)
    requires ValidGeometry(plan.geometry) && 0 <= start && 0 <= n && start + n < |rows|
  {
    && HasRow(plan.geometry, plan.storage, n, |fed|)
    && rows[start + n] == RowFrom(plan.geometry, plan.storage, order, order != plan.order, fed, n)
  }

  /** The rows offered since `base` are rows of the stored bytes `fed`, in order and without a gap. */
  ghost predicate RowsMatch(plan: ImagePlan, order: ByteOrder, base: seq<RowView>, rows: seq<RowView>, fed: Bytes)
    requires ValidGeometry(plan.geometry)
  {
    base <= rows && forall n | 0 <= n < |rows| - |base| :: RowMatches(plan, order, |base|, rows, fed, n)
  }

  lemma RowsMatchNothing(plan: ImagePlan, order: ByteOrder, base: seq<RowView>, fed: Bytes)
    requires ValidGeometry(plan.geometry)
    ensures RowsMatch(plan, order, base, base, fed)
  {
  }

  lemma RowsMatchMore(plan: ImagePlan, order: ByteOrder, base: seq<RowView>, rows: seq<RowView>, fed: Bytes, more: Bytes)
    requires ValidGeometry(plan.geometry) && RowsMatch(plan, order, base, rows, fed)
    ensures RowsMatch(plan, order, base, rows, fed + more)
  {
    hide RowFrom, HasRow;
    forall n | 0 <= n < |rows| - |base|
      ensures RowMatches(plan, order, |base|, rows, fed + more, n)
    {
      assert RowMatches(plan, order, |base|, rows, fed, n);
      RowFromIsStable(plan.geometry, plan.storage, order, order != plan.order, fed, more, n);
    }
  }

  lemma RowsMatchNext(plan: ImagePlan, order: ByteOrder, base: seq<RowView>, rows: seq<RowView>, fed: Bytes, view: RowView)
    requires ValidGeometry(plan.geometry) && RowsMatch(plan, order, base, rows, fed)
    requires HasRow(plan.geometry, plan.storage, |rows| - |base|, |fed|)
    requires view == RowFrom(plan.geometry, plan.storage, order, order != plan.order, fed, |rows| - |base|)
    ensures RowsMatch(plan, order, base, rows + [view], fed)
  {
    hide RowFrom, HasRow;
    forall n | 0 <= n < |rows + [view]| - |base|
      ensures RowMatches(plan, order, |base|, rows + [view], fed, n)
    {
      if n < |rows| - |base| {
        assert RowMatches(plan, order, |base|, rows, fed, n);
      }
    }
  }

  datatype RowSummary = RowSummary(rows: U64, bytes: U64)

  /** The front of the row buffer is the end of the stored bytes. */
  ghost predicate Waiting(row: Bytes, fed: Bytes, fill: int) {
    0 <= fill <= |row| && fill <= |fed| && row[..fill] == fed[|fed| - fill..]
  }

  lemma WaitingMore(before: Bytes, fed: Bytes, fill: int, piece: Bytes)
    requires Waiting(before, fed, fill) && fill + |piece| <= |before|
    ensures Waiting(before[..fill] + piece + before[fill + |piece|..], fed + piece, fill + |piece|)
  {
    var after := before[..fill] + piece + before[fill + |piece|..];
    assert after[..fill + |piece|] == before[..fill] + piece;
    assert (fed + piece)[|fed| - fill..] == fed[|fed| - fill..] + piece;
  }

  lemma WaitingNothing(row: Bytes, fed: Bytes)
    ensures Waiting(row, fed, 0)
  {
  }

  lemma WaitingRow(row: Bytes, fed: Bytes)
    requires Waiting(row, fed, |row|)
    ensures row == fed[|fed| - |row|..]
  {
  }

  /** The state that the delivery loops share. */
  class RowDelivery {
    const plan: ImagePlan
    const order: ByteOrder
    const sink: RowSink
    const sourceRow: array<Byte>
    const planeRow: array<Byte>
    var rowFill: U64
    var ordinal: U64
    var rowsDelivered: U64
    var bytesDelivered: U64
    /** What the second digest has been fed; empty without a checksum. */
    var hashed: Bytes
    ghost const base: seq<RowView>

    constructor (plan: ImagePlan, order: ByteOrder, sink: RowSink)
      requires ValidPlan(plan)
      ensures this.plan == plan && this.order == order && this.sink == sink
      ensures base == sink.rows && fresh(sourceRow) && fresh(planeRow)
      ensures Shape() && rowFill == 0 && Holds([], 0) && hashed == []
    {
      hide ValidPlan, RowsMatch;
      PlanFacts(plan);
      RowGeometry(plan.geometry, plan.storage);
      this.plan := plan;
      this.order := order;
      this.sink := sink;
      sourceRow := new Byte[SourceRowBytes(plan.geometry, plan.storage)](_ => 0);
      planeRow := new Byte[if plan.storage == Normal then PlaneRowBytes(plan.geometry) else 0](_ => 0);
      rowFill, ordinal, rowsDelivered, bytesDelivered := 0, 0, 0, 0;
      hashed := [];
      base := sink.rows;
      new;
      RowsMatchNothing(plan, order, base, []);
    }

    ghost predicate Shape() {
      && ValidGeometry(plan.geometry)
      && sourceRow != planeRow
      && sourceRow.Length == SourceRowBytes(plan.geometry, plan.storage)
      && (plan.storage == Normal ==> planeRow.Length == PlaneRowBytes(plan.geometry))
    }

    /** The counters after `n` delivered rows out of whole stored rows. */
    ghost predicate Counted(n: int)
      reads this`rowsDelivered, this`bytesDelivered, sink
    {
      && rowsDelivered as int == n
      && bytesDelivered as int == n * PlaneRowBytes(plan.geometry)
      && |sink.rows| == |base| + n
    }

    /**
     Of the stored bytes `fed`, all whole rows but possibly the last have been delivered, and the
     other `fill` bytes stand at the front of the row buffer.
     */
    ghost predicate Holds(fed: Bytes, fill: int)
      requires Shape()
      reads this`ordinal, this`rowsDelivered, this`bytesDelivered, sink, sourceRow
    {
      var rowBytes := SourceRowBytes(plan.geometry, plan.storage);
      && 0 <= fill <= rowBytes
      && |fed| == ordinal * rowBytes + fill <= ByteCount(plan.geometry)
      && Waiting(sourceRow[..], fed, fill)
      && Counted(ordinal * PlanesPerRow(plan.geometry, plan.storage))
      && RowsMatch(plan, order, base, sink.rows, fed)
    }

    /** `emit_plane_row`: the buffer is turned around in place and then offered. */
    method EmitPlaneRow(channel: U64, row: U64, bytes: array<Byte>, ghost fed: Bytes)
      returns (r: Result<()>)
      requires Shape() && bytes in {sourceRow, planeRow} && bytes.Length == PlaneRowBytes(plan.geometry)
      requires Counted(rowsDelivered) && rowsDelivered < plan.geometry.height * plan.geometry.channels
      requires RowsMatch(plan, order, base, sink.rows, fed)
      requires HasRow(plan.geometry, plan.storage, rowsDelivered, |fed|)
      requires channel == ChannelOfRow(plan.geometry, plan.storage, rowsDelivered)
      requires row == RowOfRow(plan.geometry, plan.storage, rowsDelivered)
      requires RowFrom(plan.geometry, plan.storage, order, order != plan.order, fed, rowsDelivered).bytes
            == MaybeSwapped(bytes[..], ComponentSize(plan.geometry.format), order != plan.order)
      modifies this`rowsDelivered, this`bytesDelivered, sink, bytes
      ensures RowsMatch(plan, order, base, sink.rows, fed)
      ensures r.Ok? ==> Counted(old(rowsDelivered) + 1)
      ensures r.Ok? <==> sink.answer(|old(sink.rows)|).None?
      ensures |sink.rows| == |old(sink.rows)| + 1
    {
      hide RowsMatch, RowFrom, HasRow, Swapped;
      RowCounts(plan.geometry, rowsDelivered);
      if order != plan.order {
        assert bytes[..bytes.Length] == bytes[..];
        SwapInPlace(bytes, bytes.Length, ComponentSize(plan.geometry.format));
        assert bytes[..bytes.Length] == bytes[..];
      }
      var view := RowView(channel, row, order, bytes[..]);
      RowsMatchNext(plan, order, base, sink.rows, fed, view);
      var refused := sink.Consume(view);
      if refused.Some? {
        return Err(refused.value);
      }
      rowsDelivered := rowsDelivered + 1;
      bytesDelivered := bytesDelivered + bytes.Length;
      return Ok(());
    }

    /** The bytes of one channel, gathered from a row that holds them all. */
    method GatherPlane(channel: U64)
      requires Shape() && plan.storage == Normal && channel < plan.geometry.channels
      modifies planeRow
      ensures planeRow[..] == PlaneRow(plan.geometry, Normal, sourceRow[..], channel)
    {
      hide PlaneRow, ValidGeometry;
      var g := plan.geometry;
      var size := SampleSize(g.format);
      RowGeometry(g, Normal);
      ghost var plane := PlaneRow(g, Normal, sourceRow[..], channel);
      var pixel: U64 := 0;
      while pixel < g.width
        invariant 0 <= pixel <= g.width
        invariant forall k | 0 <= k < pixel * size :: k < |plane| && planeRow[k] == plane[k]
      {
        PixelOffsets(g, channel, pixel);
        var sourceOffset: U64 := (pixel * g.channels + channel) * size;
        var outputOffset: U64 := pixel * size;
        forall k | outputOffset <= k < outputOffset + size
          ensures plane[k] == sourceRow[sourceOffset + (k - outputOffset)]
        {
          GatheredByte(g, sourceRow[..], channel, pixel, k - outputOffset);
        }
        forall k | 0 <= k < size {
          planeRow[outputOffset + k] := sourceRow[sourceOffset + k];
        }
        pixel := pixel + 1;
      }
    }

    /** One delivered row for every channel of the stored row. */
    method EmitChannels(ghost fed: Bytes) returns (r: Result<()>)
      requires Shape() && plan.storage == Normal
      requires ordinal < SourceRowCount(plan.geometry, Normal) && Holds(fed, sourceRow.Length)
      modifies this`rowsDelivered, this`bytesDelivered, sink, planeRow
      ensures RowsMatch(plan, order, base, sink.rows, fed)
      ensures r.Ok? ==> Counted((ordinal + 1) * plan.geometry.channels)
      ensures Willing(sink) ==> r.Ok?
    {
      hide RowsMatch, RowFrom, HasRow, ByteCount, ValidGeometry, SourceRowBytes, PlaneRow, Counted, SourceRowCount, PlaneRowBytes,
          MaybeSwapped;
      var g, swap := plan.geometry, order != plan.order;
      ghost var row := sourceRow[..];
      WaitingRow(row, fed);
      RowAfter(g, Normal, ordinal);
      var channel: U64 := 0;
      while channel < g.channels
        invariant 0 <= channel <= g.channels
        invariant Counted(ordinal * g.channels + channel)
        invariant RowsMatch(plan, order, base, sink.rows, fed)
      {
        RowReady(g, Normal, order, swap, fed, row, ordinal, channel);
        GatherPlane(channel);
        CountedDelivered(ordinal * g.channels + channel);
        r := EmitPlaneRow(channel, ordinal, planeRow, fed);
        if r.Err? {
          return;
        }
        channel := channel + 1;
      }
      return Ok(());
    }

    /** A Planar row is delivered from the row buffer itself. */
    method EmitPlanar(ghost fed: Bytes) returns (r: Result<()>)
      requires Shape() && plan.storage == Planar
      requires ordinal < SourceRowCount(plan.geometry, Planar) && Holds(fed, sourceRow.Length)
      modifies this`rowsDelivered, this`bytesDelivered, sink, sourceRow
      ensures RowsMatch(plan, order, base, sink.rows, fed)
      ensures r.Ok? ==> Counted(ordinal + 1)
      ensures Willing(sink) ==> r.Ok?
    {
      hide RowsMatch, RowFrom, HasRow, ByteCount, ValidGeometry, SourceRowBytes, PlaneRow, Counted, SourceRowCount, PlaneRowBytes,
          MaybeSwapped;
      var g, swap := plan.geometry, order != plan.order;
      ghost var row := sourceRow[..];
      WaitingRow(row, fed);
      RowAfter(g, Planar, ordinal);
      PlanarRowIsWhole(g, row);
      RowReady(g, Planar, order, swap, fed, row, ordinal, 0);
      CountedDelivered(ordinal as int);
      r := EmitPlaneRow(ordinal / g.height, ordinal % g.height, sourceRow, fed);
    }

    lemma CountedDelivered(n: int)
      requires Counted(n)
      ensures rowsDelivered as int == n && Counted(rowsDelivered)
    {
    }

    /** `emit_source_row`: a whole stored row becomes one delivered row, or one for every channel. */
    method EmitSourceRow(ghost fed: Bytes) returns (r: Result<()>)
      requires Shape() && ordinal < SourceRowCount(plan.geometry, plan.storage) && Holds(fed, sourceRow.Length)
      modifies this`ordinal, this`rowsDelivered, this`bytesDelivered, sink, sourceRow, planeRow
      ensures RowsMatch(plan, order, base, sink.rows, fed)
      ensures r.Ok? ==> ordinal == old(ordinal) + 1 && Holds(fed, 0)
      ensures Willing(sink) ==> r.Ok?
    {
      hide RowsMatch, ByteCount, ValidGeometry, SourceRowBytes, Counted, SourceRowCount;
      RowAfter(plan.geometry, plan.storage, ordinal);
      if plan.storage == Planar {
        r := EmitPlanar(fed);
      } else {
        r := EmitChannels(fed);
      }
      if r.Err? {
        return;
      }
      ordinal := ordinal + 1;
      WaitingNothing(sourceRow[..], fed);
    }

    /** `hash_delivered_serialized`. */
    method HashDelivered(bytes: Bytes)
      modifies this`hashed
      ensures hashed == if plan.expectedDigest.Some? then old(hashed) + bytes else old(hashed)
    {
      if plan.expectedDigest.Some? {
        hashed := hashed + bytes;
      }
    }

    /** Moves bytes of a decoded piece into the row buffer, behind those that wait there. */
    method FillRow(decoded: Bytes, offset: int, count: int, ghost fed: Bytes)
      requires Shape() && Holds(fed, rowFill)
      requires 0 <= offset && 0 <= count && offset + count <= |decoded|
      requires rowFill + count <= sourceRow.Length && |fed| + count <= ByteCount(plan.geometry)
      modifies this`rowFill, sourceRow
      ensures rowFill == old(rowFill) + count
      ensures Holds(fed + decoded[offset..offset + count], rowFill)
    {
      hide RowsMatch, Counted, ByteCount, SourceRowBytes, Waiting;
      ghost var piece := decoded[offset..offset + count];
      WaitingMore(sourceRow[..], fed, rowFill, piece);
      CopyInto(sourceRow, rowFill, decoded[offset..offset + count]);
      RowsMatchMore(plan, order, base, sink.rows, fed, piece);
      rowFill := rowFill + count;
    }

    /** `feed_decoded`: a decoded piece, however it lies across the rows. */
    method FeedDecoded(decoded: Bytes, ghost fed: Bytes) returns (r: Result<()>)
      requires Shape() && Holds(fed, rowFill) && rowFill < sourceRow.Length
      requires |fed| + |decoded| <= ByteCount(plan.geometry)
      modifies this, sink, sourceRow, planeRow
      ensures hashed == old(hashed)
      ensures RowsMatch(plan, order, base, sink.rows, fed + decoded)
      ensures r.Ok? ==> Holds(fed + decoded, rowFill) && rowFill < sourceRow.Length
      ensures Willing(sink) ==> r.Ok?
    {
      hide RowsMatch, Counted, ByteCount, SourceRowBytes, ValidGeometry, Holds, SourceRowCount;
      var offset := 0;
      assert fed + decoded[..0] == fed;
      while offset < |decoded|
        invariant 0 <= offset <= |decoded|
        invariant Holds(fed + decoded[..offset], rowFill) && rowFill < sourceRow.Length
        invariant hashed == old(hashed)
      {
        var count := Min(sourceRow.Length - rowFill, |decoded| - offset);
        FillRow(decoded, offset, count, fed + decoded[..offset]);
        assert fed + decoded[..offset] + decoded[offset..offset + count] == fed + decoded[..offset + count];
        offset := offset + count;
        if rowFill == sourceRow.Length {
          RowIsWithin(fed + decoded[..offset]);
          r := EmitSourceRow(fed + decoded[..offset]);
          if r.Err? {
            RowsMatchMore(plan, order, base, sink.rows, fed + decoded[..offset], decoded[offset..]);
            assert fed + decoded[..offset] + decoded[offset..] == fed + decoded;
            return;
          }
          rowFill := 0;
        }
      }
      assert decoded[..offset] == decoded;
      HoldsRows(fed + decoded, rowFill);
      return Ok(());
    }

    /** The row buffer was read from the source as a whole. */
    lemma Loaded(fed: Bytes, row: Bytes)
      requires Shape() && Counted(ordinal * PlanesPerRow(plan.geometry, plan.storage))
      requires RowsMatch(plan, order, base, sink.rows, fed) && row == sourceRow[..]
      requires |fed| == ordinal * SourceRowBytes(plan.geometry, plan.storage)
      requires |fed| + sourceRow.Length <= ByteCount(plan.geometry)
      ensures Holds(fed + row, sourceRow.Length)
    {
      hide RowsMatch, Counted;
      RowsMatchMore(plan, order, base, sink.rows, fed, row);
    }

    lemma HoldsRows(fed: Bytes, fill: int)
      requires Shape() && Holds(fed, fill)
      ensures RowsMatch(plan, order, base, sink.rows, fed)
    {
    }

    /** A full row buffer belongs to a row of the image. */
    lemma RowIsWithin(fed: Bytes)
      requires Shape() && Holds(fed, sourceRow.Length)
      ensures ordinal < SourceRowCount(plan.geometry, plan.storage)
    {
      RowGeometry(plan.geometry, plan.storage);
      Mul.Behind(ordinal, SourceRowCount(plan.geometry, plan.storage), SourceRowBytes(plan.geometry, plan.storage));
    }

    /** Once all bytes of the image have been fed, no row is left over and every count is the image's own. */
    lemma WholeExtent(fed: Bytes)
      requires Shape() && Holds(fed, rowFill) && rowFill < sourceRow.Length && |fed| == ByteCount(plan.geometry)
      ensures rowFill == 0 && ordinal == SourceRowCount(plan.geometry, plan.storage)
      ensures rowsDelivered as int == plan.geometry.height * plan.geometry.channels
      ensures bytesDelivered as int == ByteCount(plan.geometry)
      ensures |sink.rows| == |base| + plan.geometry.height * plan.geometry.channels
    {
      RowGeometry(plan.geometry, plan.storage);
      Mul.Unique(ordinal, rowFill, SourceRowCount(plan.geometry, plan.storage), SourceRowBytes(plan.geometry, plan.storage));
    }

    /** The check of the row extent at the end never fails. */
    method CheckExtent(ghost fed: Bytes) returns (r: Result<RowSummary>)
      requires Shape() && Holds(fed, rowFill) && rowFill < sourceRow.Length && |fed| == ByteCount(plan.geometry)
      requires plan.compression.uncompressedSize == ByteCount(plan.geometry)
      ensures r.Ok?
      ensures r.value.rows as int == plan.geometry.height * plan.geometry.channels && r.value.bytes as int == ByteCount(plan.geometry)
    {
      WholeExtent(fed);
      hide ByteCount, RowsMatch;
      var g := plan.geometry;
      return if ordinal != SourceRowCount(g, plan.storage) || rowsDelivered != g.height * g.channels
                || bytesDelivered != plan.compression.uncompressedSize then Err(InvalidBlock)
        else Ok(RowSummary(rowsDelivered, bytesDelivered));
    }
  }

  /** The last whole row of `fed` is what the next rows of the delivery are made of. */
  lemma RowReady(g: Geometry, storage: PixelStorage, order: ByteOrder, swap: bool, fed: Bytes, row: Bytes, ordinal: int, c: int)
    requires ValidGeometry(g) && 0 <= ordinal < SourceRowCount(g, storage) && 0 <= c < PlanesPerRow(g, storage)
    requires |row| == SourceRowBytes(g, storage) <= |fed| == ordinal * SourceRowBytes(g, storage) + SourceRowBytes(g, storage)
    requires row == fed[|fed| - |row|..]
    ensures var n := ordinal * PlanesPerRow(g, storage) + c;
            && 0 <= n < g.height * g.channels
            && HasRow(g, storage, n, |fed|)
            && ChannelOfRow(g, storage, n) == (if storage == Planar then ordinal / g.height else c)
            && RowOfRow(g, storage, n) == (if storage == Planar then ordinal % g.height else ordinal)
            && 0 <= ChannelOfRow(g, storage, n) < g.channels
            && RowFrom(g, storage, order, swap, fed, n).bytes
               == MaybeSwapped(PlaneRow(g, storage, row, ChannelOfRow(g, storage, n)), ComponentSize(g.format), swap)
  {
    hide PlaneRow, MaybeSwapped, SourceRowBytes;
    RowGeometry(g, storage);
    var planes := PlanesPerRow(g, storage);
    var n := ordinal * planes + c;
    Mul.Index(ordinal, c, SourceRowCount(g, storage), planes);
    Mul.DivMod(ordinal, c, planes);
    ChannelInRange(g, storage, n);
    assert SourceRowOf(g, storage, n) == ordinal;
    assert fed[|fed| - |row|..] == fed[ordinal * |row|..ordinal * |row| + |row|];
  }

  lemma PlanarRowIsWhole(g: Geometry, row: Bytes)
    requires ValidGeometry(g) && |row| == SourceRowBytes(g, Planar)
    ensures SourceRowBytes(g, Planar) == PlaneRowBytes(g)
    ensures forall c | 0 <= c < g.channels :: PlaneRow(g, Planar, row, c) == row
  {
  }

  lemma RowAfter(g: Geometry, storage: PixelStorage, ordinal: int)
    requires ValidGeometry(g) && 0 <= ordinal < SourceRowCount(g, storage)
    ensures ordinal * PlanesPerRow(g, storage) + PlanesPerRow(g, storage) == (ordinal + 1) * PlanesPerRow(g, storage)
    ensures ordinal * SourceRowBytes(g, storage) + SourceRowBytes(g, storage) == (ordinal + 1) * SourceRowBytes(g, storage)
    ensures 0 <= ordinal * SourceRowBytes(g, storage) && ordinal + 1 <= MAX_U64
    ensures (ordinal + 1) * SourceRowBytes(g, storage) <= ByteCount(g)
  {
    RowGeometry(g, storage);
    Mul.Slice(ordinal, SourceRowCount(g, storage), SourceRowBytes(g, storage));
  }

  lemma PixelOffsets(g: Geometry, channel: int, pixel: int)
    requires ValidGeometry(g) && 0 <= channel < g.channels && 0 <= pixel < g.width
    ensures var size := SampleSize(g.format);
            && 0 <= pixel * g.channels + channel
            && 0 <= pixel * size && pixel * size + size == (pixel + 1) * size <= PlaneRowBytes(g)
            && 0 <= (pixel * g.channels + channel) * size
            && (pixel * g.channels + channel) * size + size <= SourceRowBytes(g, Normal) <= MAX_U64
            && pixel * g.channels + channel <= (pixel * g.channels + channel) * size
  {
    RowGeometry(g, Normal);
    Mul.Gather(pixel, channel, g.width, g.channels, SampleSize(g.format));
  }

  lemma GatheredByte(g: Geometry, row: Bytes, channel: int, pixel: int, b: int)
    requires ValidGeometry(g) && |row| == SourceRowBytes(g, Normal)
    requires 0 <= channel < g.channels && 0 <= pixel < g.width && 0 <= b < SampleSize(g.format)
    ensures var size := SampleSize(g.format);
            && 0 <= pixel * size + b < PlaneRowBytes(g)
            && 0 <= (pixel * g.channels + channel) * size + b < |row|
            && PlaneRow(g, Normal, row, channel)[pixel * size + b] == row[(pixel * g.channels + channel) * size + b]
  {
    PixelOffsets(g, channel, pixel);
    Mul.DivMod(pixel, b, SampleSize(g.format));
  }

  lemma RowCounts(g: Geometry, n: int)
    requires ValidGeometry(g) && 0 <= n < g.height * g.channels
    ensures 0 <= PlaneRowBytes(g)
    ensures n + 1 <= MAX_U64
    ensures n * PlaneRowBytes(g) + PlaneRowBytes(g) == (n + 1) * PlaneRowBytes(g) <= MAX_U64
  {
    RowGeometry(g, Planar);
    Mul.Slice(n, g.height * g.channels, PlaneRowBytes(g));
  }

  // ---------------------------------------------------------------- the first pass

  const HASH_CHUNK := 8 * 1024 * 1024

  /** `verify_image_checksum_streaming`: reads the whole block once and compares its digest. */
  method VerifyStreaming(source: ByteSource, plan: ImagePlan, digest: Bytes -> Bytes, ghost data: Bytes)
    returns (r: Result<()>, ghost first: Bytes)
    requires InSource(plan.block)
    modifies source
    ensures ObtainedFront(plan.block, old(source.transcript), source.transcript, first)
    ensures r.Ok? ==> Obtained(plan.block, old(source.transcript), source.transcript, first)
    ensures r.Ok? && plan.expectedDigest.Some? ==> |first| == BlockSize(plan.block) && digest(first) == plan.expectedDigest.value
    ensures Supplies(source, plan.block, data) ==> (r.Ok? <==> DigestMatches(plan, digest, data))
  {
    hide Supplies, Obtained, ChunkObtained, ObtainedFront;
    first := [];
    ObtainedNothing(plan.block, source.transcript);
    FrontOfObtained(plan.block, old(source.transcript), source.transcript, source.transcript, first);
    if plan.expectedDigest.None? {
      return Ok(()), first;
    }
    ghost var faithful := Supplies(source, plan.block, data);
    if faithful {
      SuppliesSize(source, plan.block, data);
    }
    var size := BlockSize(plan.block);
    var buffer := new Byte[Min(HASH_CHUNK, size)](_ => 0);
    var hashed: Bytes := [];
    var offset: U64 := 0;
    while offset < size
      invariant 0 <= offset <= size && |hashed| == offset
      invariant Obtained(plan.block, old(source.transcript), source.transcript, hashed)
      invariant faithful ==> hashed == data[..offset]
    {
      var count: U64 := Min(buffer.Length, size - offset);
      ghost var heard := source.transcript;
      var read := ReadChunk(source, plan.block, offset, buffer, 0, count, data);
      if read.Err? {
        ObtainedGrows(plan.block, old(source.transcript), heard, hashed);
        ObtainedNothing(plan.block, old(source.transcript));
        FrontOfObtained(plan.block, old(source.transcript), old(source.transcript), source.transcript, first);
        return Err(read.error), first;
      }
      ObtainedNext(plan.block, old(source.transcript), heard, source.transcript, hashed, buffer[0..count]);
      hashed := hashed + buffer[0..count];
      offset := offset + count;
    }
    first := hashed;
    FrontOfObtained(plan.block, old(source.transcript), source.transcript, source.transcript, first);
    assert faithful ==> hashed == data;
    if digest(hashed) != plan.expectedDigest.value {
      return Err(ChecksumMismatch), first;
    }
    return Ok(()), first;
  }

  // ---------------------------------------------------------------- piece by piece

  /**
   However the block goes on after `got`, it decodes to `done` and then the pieces in `unread`.
   The bytes that are still to come may be anything.
   */
  ghost predicate Advanced(codec: Codec, list: seq<Subblock>, unread: seq<Subblock>, got: Bytes, done: Bytes) {
    && |got| + TotalCompressed(unread) == TotalCompressed(list)
    && |done| + TotalUncompressed(unread) == TotalUncompressed(list)
    && forall s | got <= s && TotalCompressed(list) <= |s| ::
         DecodedStream(codec, s, 0, list) == PrependBytes(done, DecodedStream(codec, s, |got|, unread))
  }

  lemma AdvancedNothing(codec: Codec, list: seq<Subblock>)
    ensures Advanced(codec, list, list, [], [])
  {
    forall s | TotalCompressed(list) <= |s|
      ensures DecodedStream(codec, s, 0, list) == PrependBytes([], DecodedStream(codec, s, 0, list))
    {
      PrependBytesTwice([], [], DecodedStream(codec, s, 0, list));
    }
  }

  lemma AdvancedNext(codec: Codec, list: seq<Subblock>, unread: seq<Subblock>, got: Bytes, done: Bytes, chunk: Bytes)
    requires Advanced(codec, list, unread, got, done) && unread != [] && |chunk| == unread[0].compressed
    ensures var piece := DecompressSubblock(codec, chunk, unread[0].uncompressed);
            if piece.Ok? then Advanced(codec, list, unread[1..], got + chunk, done + piece.value)
            else forall s | got + chunk <= s && TotalCompressed(list) <= |s| :: DecodedStream(codec, s, 0, list).Err?
  {
    hide DecompressSubblock, DecodedStream, PrependBytes;
    var piece := DecompressSubblock(codec, chunk, unread[0].uncompressed);
    forall s | got + chunk <= s && TotalCompressed(list) <= |s|
      ensures if piece.Ok? then
                DecodedStream(codec, s, 0, list)
                == PrependBytes(done + piece.value, DecodedStream(codec, s, |got + chunk|, unread[1..]))
              else DecodedStream(codec, s, 0, list).Err?
    {
      assert s[|got|..|got| + |chunk|] == chunk;
      assert got <= s;
      DecodingAdvance(codec, s, |got|, unread, done);
    }
  }

  lemma AdvancedAll(codec: Codec, list: seq<Subblock>, got: Bytes, done: Bytes)
    requires Advanced(codec, list, [], got, done)
    ensures |got| == TotalCompressed(list) && DecodedStream(codec, got, 0, list) == Ok(done)
  {
    DecodingEnds(codec, got, |got|, done);
    hide DecodedStream;
  }

  /** `done` is what the first pieces of the list, read as `got`, decode to. */
  ghost predicate PartlyDecoded(codec: Codec, list: seq<Subblock>, got: Bytes, done: Bytes) {
    exists k :: 0 <= k <= |list| && Advanced(codec, list, list[k..], got, done)
  }

  /** `fed` are the stored bytes behind the serialized bytes `got`, of which there may be more to come. */
  ghost predicate StoredFront(codec: Codec, plan: ImagePlan, got: Bytes, fed: Bytes) {
    if plan.compression.kind == NoCodec then fed == got
    else
      && plan.compression.itemSize > 0
      && exists done :: fed == Restored(plan.compression, done) && PartlyDecoded(codec, plan.compression.subblocks, got, done)
  }

  /** They are the front of the block's stored bytes, if it has any. */
  lemma StoredFrontIsFront(codec: Codec, plan: ImagePlan, got: Bytes, fed: Bytes, data: Bytes)
    requires ValidPlan(plan) && plan.compression.kind == codec.kind && PiecesInOrder(plan)
    requires StoredFront(codec, plan, got, fed) && got <= data && |data| == BlockSize(plan.block)
    requires StoredPixels(codec, plan, data).Ok?
    ensures fed <= StoredPixels(codec, plan, data).value
  {
    if plan.compression.kind == NoCodec {
      UncompressedPixels(codec, plan, data);
    } else {
      var list := plan.compression.subblocks;
      var done :| fed == Restored(plan.compression, done) && PartlyDecoded(codec, list, got, done);
      var k :| 0 <= k <= |list| && Advanced(codec, list, list[k..], got, done);
      var stream := DecodedStream(codec, data, 0, list);
      assert stream == PrependBytes(done, DecodedStream(codec, data, |got|, list[k..]));
      hide DecodedStream, Advanced, TotalCompressed;
      if plan.compression.byteShuffled {
        AllOrNothing(list, k, done);
        RestoredMore(plan, [], []);
        if k == |list| {
          DecodingEnds(codec, data, |got|, done);
          assert list[k..] == [];
        }
      }
    }
  }

  /** With a single piece, either nothing has been decoded or everything. */
  lemma AllOrNothing(list: seq<Subblock>, k: int, done: Bytes)
    requires |list| == 1 && 0 <= k <= |list| && |done| + TotalUncompressed(list[k..]) == TotalUncompressed(list)
    ensures k == |list| || done == []
  {
    if k == 0 {
      assert list[0..] == list;
    }
  }

  /** Row delivery of a shuffled block needs the whole stream at once, so only one piece is admitted. */
  predicate PiecesInOrder(plan: ImagePlan) {
    plan.compression.byteShuffled ==> |plan.compression.subblocks| <= 1
  }

  /** One piece, decoded by a plan of its own. */
  method DecodePiece(codec: Codec, plan: CompressionPlan, sub: Subblock, serialized: Bytes) returns (r: Result<Bytes>)
    requires plan.itemSize > 0 && |serialized| == sub.compressed && sub.compressed > 0 && sub.uncompressed > 0
    ensures var piece := DecompressSubblock(codec, serialized, sub.uncompressed);
            if piece.Ok? then r == Ok(Restored(plan, piece.value)) else r.Err?
  {
    hide DecompressSubblock, Restored;
    var one := CompressionPlan(plan.kind, plan.byteShuffled, sub.uncompressed, plan.itemSize, [sub]);
    SinglePiece(codec, plan, one, sub, serialized);
    var decoded := new Byte[sub.uncompressed](_ => 0);
    var decompressed := DecodeCompressedBlock(codec, serialized, one, decoded, sub.uncompressed);
    if decompressed.Err? {
      return Err(decompressed.error);
    }
    assert decoded[..sub.uncompressed] == decoded[..];
    return Ok(decoded[..]);
  }

  lemma SinglePiece(codec: Codec, plan: CompressionPlan, one: CompressionPlan, sub: Subblock, serialized: Bytes)
    requires plan.itemSize > 0 && |serialized| == sub.compressed && sub.compressed > 0 && sub.uncompressed > 0
    requires one == CompressionPlan(plan.kind, plan.byteShuffled, sub.uncompressed, plan.itemSize, [sub])
    ensures Conserves(one, |serialized|)
    ensures DecodedStream(codec, serialized, 0, [sub]) == DecompressSubblock(codec, serialized, sub.uncompressed)
    ensures DecodedStream(codec, serialized, 0, [sub]).Ok? ==>
              Restored(one, DecodedStream(codec, serialized, 0, [sub]).value) == Restored(plan, DecodedStream(codec, serialized, 0,
                  [sub]).value)
  {
    hide DecompressSubblock;
    var whole := DecompressSubblock(codec, serialized, sub.uncompressed);
    assert [sub][1..] == [];
    assert TotalCompressed([sub]) == sub.compressed && TotalUncompressed([sub]) == sub.uncompressed;
    assert serialized[0..sub.compressed] == serialized;
    assert whole.Ok? ==> whole.value + [] == whole.value;
  }

  lemma RestoredMore(plan: ImagePlan, done: Bytes, piece: Bytes)
    requires plan.compression.itemSize > 0 && (plan.compression.byteShuffled ==> done == [])
    ensures Restored(plan.compression, done + piece) == Restored(plan.compression, done) + Restored(plan.compression, piece)
    ensures Restored(plan.compression, []) == []
  {
    if plan.compression.byteShuffled {
      assert done + piece == piece;
      assert Restored(plan.compression, done) == [];
    }
  }

  lemma PrefixGrows(got: Bytes, chunk: Bytes, data: Bytes)
    ensures got <= data && |got| + |chunk| <= |data| && chunk == data[|got|..|got| + |chunk|] ==> got + chunk <= data
  {
  }

  /** Between two turns of the loop: `row` rows have been read and delivered, and nothing else. */
  ghost predicate Running(source: ByteSource, d: RowDelivery, row: int, got: Bytes, start: Bytes, data: Bytes)
    requires d.Shape()
    reads source, d, d.sink, d.sourceRow
  {
    && d.Holds(got, 0) && d.ordinal as int == row && d.rowFill == 0
    && (d.plan.expectedDigest.Some? ==> d.hashed == got)
    && Obtained(d.plan.block, start, source.transcript, got)
    && (Supplies(source, d.plan.block, data) ==> got <= data)
  }

  /** One turn of the loop: reads a stored row into the row buffer and delivers it. */
  method DeliverRow(source: ByteSource, d: RowDelivery, row: U64, ghost got: Bytes, ghost start: Bytes, ghost data: Bytes)
    returns (r: Result<()>, ghost next: Bytes)
    requires d.Shape() && InSource(d.plan.block) && BlockSize(d.plan.block) == ByteCount(d.plan.geometry)
    requires row < SourceRowCount(d.plan.geometry, d.plan.storage) && Running(source, d, row, got, start, data)
    modifies source, d, d.sink, d.sourceRow, d.planeRow
    ensures RowsMatch(d.plan, d.order, d.base, d.sink.rows, next)
    ensures start <= source.transcript && ObtainedFront(d.plan.block, start, source.transcript, next)
    ensures r.Ok? ==> Running(source, d, row + 1, next, start, data)
    ensures Supplies(source, d.plan.block, data) ==> next <= data && (Willing(d.sink) ==> r.Ok?)
  {
    hide Supplies, Obtained, ChunkObtained, ObtainedFront, RowsMatch, ByteCount, SourceRowBytes, ValidGeometry, SourceRowCount;
    var plan := d.plan;
    next := got;
    ObtainedGrows(plan.block, start, source.transcript, got);
    d.HoldsRows(got, 0);
    RowAfter(plan.geometry, plan.storage, row);
    var rowBytes: U64 := d.sourceRow.Length;
    ghost var heard := source.transcript;
    var read := ReadChunk(source, plan.block, row * rowBytes, d.sourceRow, 0, rowBytes, data);
    FrontOfObtained(plan.block, start, heard, source.transcript, got);
    if read.Err? {
      return Err(read.error), next;
    }
    assert d.sourceRow[0..rowBytes] == d.sourceRow[..];
    ObtainedNext(plan.block, start, heard, source.transcript, got, d.sourceRow[..]);
    PrefixGrows(got, d.sourceRow[..], data);
    next := got + d.sourceRow[..];
    FrontOfObtained(plan.block, start, source.transcript, source.transcript, next);
    d.Loaded(got, d.sourceRow[..]);
    d.HashDelivered(d.sourceRow[..]);
    r := d.EmitSourceRow(next);
  }

  lemma ObtainedGrows(block: BlockSource, before: Bytes, after: Bytes, got: Bytes)
    requires Obtained(block, before, after, got)
    ensures before <= after
  {
  }

  lemma RunningStarts(source: ByteSource, d: RowDelivery, data: Bytes)
    requires d.Shape() && d.Holds([], 0) && d.rowFill == 0 && d.hashed == []
    ensures Running(source, d, 0, [], source.transcript, data)
    ensures RowsMatch(d.plan, d.order, d.base, d.sink.rows, [])
  {
    RowGeometry(d.plan.geometry, d.plan.storage);
    hide RowsMatch, Supplies, ByteCount, SourceRowBytes;
    if d.ordinal > 0 {
      Mul.Monotone(1, d.ordinal, SourceRowBytes(d.plan.geometry, d.plan.storage));
    }
  }

  lemma RunningEnds(source: ByteSource, d: RowDelivery, got: Bytes, start: Bytes, data: Bytes)
    requires ValidPlan(d.plan) && d.plan.compression.kind == NoCodec && d.Shape()
    requires Running(source, d, SourceRowCount(d.plan.geometry, d.plan.storage), got, start, data)
    ensures d.Holds(got, 0) && d.rowFill == 0 && |got| == BlockSize(d.plan.block) == ByteCount(d.plan.geometry)
    ensures d.plan.expectedDigest.Some? ==> d.hashed == got
    ensures Obtained(d.plan.block, start, source.transcript, got)
    ensures Supplies(source, d.plan.block, data) ==> got == data
  {
    PlanFacts(d.plan);
    RowGeometry(d.plan.geometry, d.plan.storage);
    if Supplies(source, d.plan.block, data) {
      SuppliesSize(source, d.plan.block, data);
    }
    hide RowsMatch, Supplies, Obtained, ByteCount, SourceRowBytes, SourceRowCount;
  }

  /** The loop over the rows of an uncompressed block. */
  method DeliverPlain(source: ByteSource, d: RowDelivery, ghost data: Bytes) returns (r: Result<()>, ghost got: Bytes)
    requires d.Shape() && ValidPlan(d.plan) && d.plan.compression.kind == NoCodec
    requires d.Holds([], 0) && d.rowFill == 0 && d.hashed == []
    modifies source, d, d.sink, d.sourceRow, d.planeRow
    ensures old(source.transcript) <= source.transcript && ObtainedFront(d.plan.block, old(source.transcript), source.transcript, got)
    ensures Supplies(source, d.plan.block, data) ==> got <= data
    ensures RowsMatch(d.plan, d.order, d.base, d.sink.rows, got)
    ensures r.Ok? ==> d.Holds(got, 0) && d.rowFill == 0 && |got| == BlockSize(d.plan.block) == ByteCount(d.plan.geometry)
                      && (d.plan.expectedDigest.Some? ==> d.hashed == got)
                      && Obtained(d.plan.block, old(source.transcript), source.transcript, got)
    ensures Supplies(source, d.plan.block, data) && Willing(d.sink) ==> r.Ok? && got == data
  {
    hide Supplies, Obtained, ObtainedFront, RowsMatch, ByteCount, SourceRowBytes, ValidGeometry, ValidPlan, SourceRowCount,
        RowDelivery.Holds, Willing,
         Running;
    PlanFacts(d.plan);
    got := [];
    RunningStarts(source, d, data);
    RowGeometry(d.plan.geometry, d.plan.storage);
    var count: U64 := SourceRowCount(d.plan.geometry, d.plan.storage);
    var row: U64 := 0;
    while row < count
      invariant 0 <= row <= count
      invariant Running(source, d, row, got, old(source.transcript), data) && old(source.transcript) <= source.transcript
      invariant RowsMatch(d.plan, d.order, d.base, d.sink.rows, got)
    {
      r, got := DeliverRow(source, d, row, got, old(source.transcript), data);
      if r.Err? {
        return;
      }
      row := row + 1;
    }
    RunningEnds(source, d, got, old(source.transcript), data);
    FrontOfObtained(d.plan.block, old(source.transcript), source.transcript, source.transcript, got);
    return Ok(()), got;
  }

  /** Between two pieces: `got` has been read, it decodes to `done`, and `done` has been fed to the rows. */
  ghost predicate Feeding(
    source: ByteSource, codec: Codec, d: RowDelivery, unread: seq<Subblock>, got: Bytes, done: Bytes, start: Bytes, data: Bytes)
    requires d.Shape() && d.plan.compression.itemSize > 0
    reads source, d, d.sink, d.sourceRow
  {
    && Advanced(codec, d.plan.compression.subblocks, unread, got, done)
    && d.Holds(Restored(d.plan.compression, done), d.rowFill) && d.rowFill < d.sourceRow.Length
    && (d.plan.expectedDigest.Some? ==> d.hashed == got)
    && Obtained(d.plan.block, start, source.transcript, got)
    && (Supplies(source, d.plan.block, data) ==> got <= data)
  }

  /** One turn of the loop over the pieces. */
  method DeliverPiece(
    source: ByteSource, codec: Codec, d: RowDelivery, sub: Subblock, ghost unread: seq<Subblock>, offset: U64, ghost got: Bytes,
    ghost done: Bytes, ghost start: Bytes, ghost data: Bytes) returns (r: Result<()>, ghost next: Bytes, ghost more: Bytes)
    requires d.Shape() && ValidPlan(d.plan) && d.plan.compression.kind == codec.kind != NoCodec && PiecesInOrder(d.plan)
    requires unread != [] && unread[0] == sub && sub in d.plan.compression.subblocks && offset == |got|
    requires d.plan.compression.byteShuffled ==> done == []
    requires Feeding(source, codec, d, unread, got, done, start, data)
    modifies source, d, d.sink, d.sourceRow, d.planeRow
    ensures d.plan.compression.itemSize > 0 && RowsMatch(d.plan, d.order, d.base, d.sink.rows, Restored(d.plan.compression, more))
    ensures start <= source.transcript && ObtainedFront(d.plan.block, start, source.transcript, next)
    ensures (next == got && more == done) || Advanced(codec, d.plan.compression.subblocks, unread[1..], next, more)
    ensures Supplies(source, d.plan.block, data) ==> next <= data
    ensures r.Ok? ==> Feeding(source, codec, d, unread[1..], next, more, start, data) && |next| == |got| + sub.compressed
    ensures Supplies(source, d.plan.block, data) && Willing(d.sink) && r.Err? ==>
              && TotalCompressed(d.plan.compression.subblocks) <= |data|
              && DecodedStream(codec, data, 0, d.plan.compression.subblocks).Err?
  {
    hide Supplies, Obtained, ChunkObtained, ObtainedFront, RowsMatch, ByteCount, SourceRowBytes, ValidGeometry, Advanced, Restored,
        RowDelivery.Holds,
         DecompressSubblock, DecodedStream, Willing, TotalCompressed, TotalUncompressed;
    var plan := d.plan;
    PieceFits(codec, plan, sub, unread, got, done);
    next, more := got, done;
    ObtainedGrows(plan.block, start, source.transcript, got);
    d.HoldsRows(Restored(plan.compression, done), d.rowFill);
    var serialized := new Byte[sub.compressed](_ => 0);
    ghost var heard := source.transcript;
    var read := ReadChunk(source, plan.block, offset, serialized, 0, sub.compressed, data);
    FrontOfObtained(plan.block, start, heard, source.transcript, got);
    if read.Err? {
      return Err(read.error), next, more;
    }
    assert serialized[0..sub.compressed] == serialized[..];
    ghost var chunk := serialized[..];
    ObtainedNext(plan.block, start, heard, source.transcript, got, chunk);
    PrefixGrows(got, chunk, data);
    AdvancedNext(codec, plan.compression.subblocks, unread, got, done, chunk);
    d.HashDelivered(serialized[..]);
    var decoded := DecodePiece(codec, plan.compression, sub, serialized[..]);
    if decoded.Err? {
      return Err(decoded.error), next, more;
    }
    ghost var piece := DecompressSubblock(codec, chunk, sub.uncompressed).value;
    RestoredMore(plan, done, piece);
    next, more := got + chunk, done + piece;
    FrontOfObtained(plan.block, start, source.transcript, source.transcript, next);
    r := d.FeedDecoded(decoded.value, Restored(plan.compression, done));
  }

  /** The next piece lies in the block, and its pixels in the image. */
  lemma PieceFits(codec: Codec, plan: ImagePlan, sub: Subblock, unread: seq<Subblock>, got: Bytes, done: Bytes)
    requires ValidPlan(plan) && plan.compression.kind == codec.kind != NoCodec
    requires unread != [] && unread[0] == sub && sub in plan.compression.subblocks
    requires Advanced(codec, plan.compression.subblocks, unread, got, done)
    ensures plan.compression.itemSize > 0 && sub.compressed > 0 && sub.uncompressed > 0
    ensures TotalCompressed(plan.compression.subblocks) == BlockSize(plan.block) <= MAX_U64
    ensures |got| + sub.compressed <= BlockSize(plan.block)
    ensures |done| + sub.uncompressed <= ByteCount(plan.geometry)
    ensures InSource(plan.block)
  {
    hide ByteCount;
  }

  lemma FeedingStarts(source: ByteSource, codec: Codec, d: RowDelivery, data: Bytes)
    requires d.Shape() && d.plan.compression.itemSize > 0
    requires d.Holds([], 0) && d.rowFill == 0 && d.hashed == []
    ensures Feeding(source, codec, d, d.plan.compression.subblocks, [], [], source.transcript, data)
    ensures RowsMatch(d.plan, d.order, d.base, d.sink.rows, Restored(d.plan.compression, []))
  {
    RowGeometry(d.plan.geometry, d.plan.storage);
    AdvancedNothing(codec, d.plan.compression.subblocks);
    RestoredMore(d.plan, [], []);
    hide RowsMatch, Supplies, ByteCount, SourceRowBytes, Advanced, Restored;
  }

  lemma FeedingEnds(source: ByteSource, codec: Codec, d: RowDelivery, got: Bytes, done: Bytes, start: Bytes, data: Bytes)
    requires ValidPlan(d.plan) && d.plan.compression.kind == codec.kind != NoCodec && d.Shape()
    requires Feeding(source, codec, d, [], got, done, start, data)
    ensures |got| == BlockSize(d.plan.block) && StoredPixels(codec, d.plan, got) == Ok(Restored(d.plan.compression, done))
    ensures d.Holds(Restored(d.plan.compression, done), d.rowFill) && d.rowFill < d.sourceRow.Length
    ensures d.plan.expectedDigest.Some? ==> d.hashed == got
    ensures Obtained(d.plan.block, start, source.transcript, got)
    ensures Supplies(source, d.plan.block, data) ==> got == data
  {
    hide RowsMatch, Obtained, ByteCount, SourceRowBytes, Restored, RowDelivery.Holds, DecodedStream, Supplies;
    if Supplies(source, d.plan.block, data) {
      SuppliesSize(source, d.plan.block, data);
    }
    AdvancedAll(codec, d.plan.compression.subblocks, got, done);
  }

  /** The loop over the pieces of a compressed block. */
  method DeliverSubblocks(source: ByteSource, codec: Codec, d: RowDelivery, ghost data: Bytes)
    returns (r: Result<()>, ghost got: Bytes, ghost fed: Bytes)
    requires d.Shape() && ValidPlan(d.plan) && d.plan.compression.kind == codec.kind != NoCodec && PiecesInOrder(d.plan)
    requires d.Holds([], 0) && d.rowFill == 0 && d.hashed == []
    modifies source, d, d.sink, d.sourceRow, d.planeRow
    ensures old(source.transcript) <= source.transcript && ObtainedFront(d.plan.block, old(source.transcript), source.transcript, got)
    ensures StoredFront(codec, d.plan, got, fed)
    ensures Supplies(source, d.plan.block, data) ==> got <= data
    ensures RowsMatch(d.plan, d.order, d.base, d.sink.rows, fed)
    ensures r.Ok? ==>
              && |got| == BlockSize(d.plan.block) && StoredPixels(codec, d.plan, got) == Ok(fed)
              && d.Holds(fed, d.rowFill) && d.rowFill == 0
              && (d.plan.expectedDigest.Some? ==> d.hashed == got)
              && Obtained(d.plan.block, old(source.transcript), source.transcript, got)
    ensures Supplies(source, d.plan.block, data) && Willing(d.sink) ==>
              && |data| == BlockSize(d.plan.block)
              && (r.Ok? <==> StoredPixels(codec, d.plan, data).Ok?)
              && (r.Ok? ==> got == data)
  {
    hide Supplies, Obtained, ObtainedFront, Advanced, RowsMatch, ByteCount, SourceRowBytes, ValidGeometry, Restored, RowDelivery.Holds,
        DecodedStream, Willing,
         Feeding, ValidPlan, StoredPixels, TotalCompressed, TotalUncompressed;
    SubblockFacts(codec, d.plan);
    if Supplies(source, d.plan.block, data) {
      SuppliesSize(source, d.plan.block, data);
    }
    ghost var done: Bytes := [];
    got, fed := [], Restored(d.plan.compression, done);
    FeedingStarts(source, codec, d, data);
    var list := d.plan.compression.subblocks;
    ghost var unread := list;
    var offset: U64 := 0;
    var i := 0;
    while i < |list|
      invariant 0 <= i <= |list| && unread == list[i..] && offset == |got|
      invariant d.plan.compression.byteShuffled && i == 0 ==> done == []
      invariant Feeding(source, codec, d, unread, got, done, old(source.transcript), data)
      invariant old(source.transcript) <= source.transcript
      invariant fed == Restored(d.plan.compression, done) && RowsMatch(d.plan, d.order, d.base, d.sink.rows, fed)
    {
      ghost var wasGot, wasDone := got, done;
      FeedingAdvances(source, codec, d, unread, got, done, old(source.transcript), data);
      OffsetFits(source, codec, d, unread, got, done, old(source.transcript), data);
      r, got, done := DeliverPiece(source, codec, d, list[i], unread, offset, got, done, old(source.transcript), data);
      fed := Restored(d.plan.compression, done);
      AdvancedToFront(codec, d.plan, i, wasGot, wasDone, got, done);
      if r.Err? {
        DecodingFailed(codec, d.plan, data);
        return;
      }
      offset := offset + list[i].compressed;
      unread := unread[1..];
      i := i + 1;
    }
    FeedingAdvances(source, codec, d, unread, got, done, old(source.transcript), data);
    assert list[|list|..] == [];
    StoredFrontIs(codec, d.plan, |list|, got, done);
    FeedingEnds(source, codec, d, got, done, old(source.transcript), data);
    FrontOfObtained(d.plan.block, old(source.transcript), source.transcript, source.transcript, got);
    d.WholeExtent(fed);
    return if d.rowFill != 0 then Err(InvalidBlock) else Ok(()), got, fed;
  }

  lemma FeedingAdvances(
    source: ByteSource, codec: Codec, d: RowDelivery, unread: seq<Subblock>, got: Bytes, done: Bytes, start: Bytes, data: Bytes)
    requires d.Shape() && d.plan.compression.itemSize > 0
    requires Feeding(source, codec, d, unread, got, done, start, data)
    ensures Advanced(codec, d.plan.compression.subblocks, unread, got, done)
    ensures Supplies(source, d.plan.block, data) ==> got <= data
  {
  }

  lemma StoredFrontIs(codec: Codec, plan: ImagePlan, k: int, got: Bytes, done: Bytes)
    requires plan.compression.kind != NoCodec && plan.compression.itemSize > 0 && 0 <= k <= |plan.compression.subblocks|
    requires Advanced(codec, plan.compression.subblocks, plan.compression.subblocks[k..], got, done)
    ensures StoredFront(codec, plan, got, Restored(plan.compression, done))
  {
    hide Advanced;
    assert PartlyDecoded(codec, plan.compression.subblocks, got, done);
  }

  lemma AdvancedToFront(codec: Codec, plan: ImagePlan, i: int, got: Bytes, done: Bytes, next: Bytes, more: Bytes)
    requires plan.compression.kind != NoCodec && plan.compression.itemSize > 0 && 0 <= i < |plan.compression.subblocks|
    requires Advanced(codec, plan.compression.subblocks, plan.compression.subblocks[i..], got, done)
    requires (next == got && more == done)
             || Advanced(codec, plan.compression.subblocks, plan.compression.subblocks[i..][1..], next, more)
    ensures StoredFront(codec, plan, next, Restored(plan.compression, more))
  {
    hide Advanced;
    assert plan.compression.subblocks[i..][1..] == plan.compression.subblocks[i + 1..];
    StoredFrontIs(codec, plan, if next == got && more == done then i else i + 1, next, more);
  }

  lemma SubblockFacts(codec: Codec, plan: ImagePlan)
    requires ValidPlan(plan) && plan.compression.kind == codec.kind != NoCodec
    ensures plan.compression.itemSize > 0 && InSource(plan.block) && ValidGeometry(plan.geometry)
    ensures TotalCompressed(plan.compression.subblocks) == BlockSize(plan.block) <= MAX_U64
  {
  }

  lemma OffsetFits(
    source: ByteSource, codec: Codec, d: RowDelivery, unread: seq<Subblock>, got: Bytes, done: Bytes, start: Bytes, data: Bytes)
    requires ValidPlan(d.plan) && d.plan.compression.kind == codec.kind != NoCodec && d.Shape() && unread != []
    requires Feeding(source, codec, d, unread, got, done, start, data)
    ensures |got| + unread[0].compressed <= MAX_U64
  {
    hide RowDelivery.Holds, Supplies, Obtained;
    SubblockFacts(codec, d.plan);
    assert TotalCompressed(unread) == unread[0].compressed + TotalCompressed(unread[1..]);
  }

  lemma DecodingFailed(codec: Codec, plan: ImagePlan, serialized: Bytes)
    requires ValidPlan(plan) && plan.compression.kind == codec.kind != NoCodec
    ensures (&& |serialized| == BlockSize(plan.block)
             && TotalCompressed(plan.compression.subblocks) <= |serialized|
             && DecodedStream(codec, serialized, 0, plan.compression.subblocks).Err?)
            ==> StoredPixels(codec, plan, serialized).Err?
  {
  }

  // ---------------------------------------------------------------- read_image_rows

  datatype RowOptions = RowOptions(maxRow: U64, maxSubblock: U64, order: ByteOrder)

  predicate TooLarge(sub: Subblock, limit: U64) {
    sub.compressed > limit || sub.uncompressed > limit
  }

  /** Why row delivery of a valid plan is refused before anything is read; None if it is not. */
  function RowRefusal(plan: ImagePlan, options: RowOptions): Option<ErrorCode> {
    if options.maxRow == 0 || options.maxSubblock == 0 then Some(InvalidArgument)
    else if SourceRowBytes(plan.geometry, plan.storage) > options.maxRow then Some(ResourceLimit)
    else if plan.compression.kind != NoCodec && exists p :: p in plan.compression.subblocks && TooLarge(p, options.maxSubblock)
      then Some(ResourceLimit)
    else if !PiecesInOrder(plan) then Some(UnsupportedFeature)
    else None
  }

  /**
   What the caller can see beforehand: one stored row, of one channel or of all, fits the row limit, every
   compressed piece fits the piece limit on both sides, and no shuffle reaches across pieces.
   */
  predicate WithinLimits(plan: ImagePlan, options: RowOptions) {
    var g := plan.geometry;
    && options.maxRow > 0 && options.maxSubblock > 0
    && g.width * S.Width(g.format) * (if plan.storage == Normal then g.channels else 1) <= options.maxRow
    && (plan.compression.kind != NoCodec ==>
          forall p | p in plan.compression.subblocks :: p.compressed <= options.maxSubblock && p.uncompressed <= options.maxSubblock)
    && !(plan.compression.byteShuffled && |plan.compression.subblocks| > 1)
  }

  /** Only then is the delivery begun. */
  lemma RefusalIsExact(plan: ImagePlan, options: RowOptions)
    ensures RowRefusal(plan, options).None? <==> WithinLimits(plan, options)
    ensures RowRefusal(plan, options) == Some(InvalidArgument) <==> options.maxRow == 0 || options.maxSubblock == 0
  {
    var list := plan.compression.subblocks;
    assert (exists p :: p in list && TooLarge(p, options.maxSubblock))
      <==> !(forall p | p in list :: p.compressed <= options.maxSubblock && p.uncompressed <= options.maxSubblock) by {
      assert forall p | p in list :: TooLarge(p, options.maxSubblock) <==> !(p.compressed <= options.maxSubblock && p.uncompressed <= options.maxSubblock);
    }
  }

  /** The checks that come first. The products cannot overflow once `plan_image_read` has accepted the geometry. */
  method CheckRows(plan: ImagePlan, options: RowOptions) returns (r: Option<ErrorCode>)
    requires ValidPlan(plan)
    ensures r == RowRefusal(plan, options)
  {
    hide ValidPlan;
    var g := plan.geometry;
    PlanFacts(plan);
    RowGeometry(g, plan.storage);
    RowGeometry(g, Normal);
    if options.maxRow == 0 || options.maxSubblock == 0 {
      return Some(InvalidArgument);
    }
    CheckedMultiplyExact(g.height, g.channels);
    CheckedMultiplyExact(g.width, SampleSize(g.format));
    CheckedMultiplyExact(PlaneRowBytes(g), g.channels);
    var planeRows := CheckedMultiply(g.height, g.channels);
    var planeRowBytes := CheckedMultiply(g.width, SampleSize(g.format));
    if planeRows.None? || planeRowBytes.None? {
      return Some(Overflow);
    }
    var sourceRowBytes := if plan.storage == Normal then CheckedMultiply(planeRowBytes.value, g.channels) else planeRowBytes;
    if sourceRowBytes.None? {
      return Some(Overflow);
    }
    if planeRowBytes.value > options.maxRow || sourceRowBytes.value > options.maxRow {
      return Some(ResourceLimit);
    }
    if plan.compression.kind != NoCodec {
      var list := plan.compression.subblocks;
      for i := 0 to |list|
        invariant forall k | 0 <= k < i :: !TooLarge(list[k], options.maxSubblock)
      {
        if TooLarge(list[i], options.maxSubblock) {
          return Some(ResourceLimit);
        }
      }
    }
    return if plan.compression.byteShuffled && |plan.compression.subblocks| > 1 then Some(UnsupportedFeature) else None;
  }

  /** The sink has been given the first rows of this Planar image, in order, and nothing else. */
  ghost predicate RowsFront(plan: ImagePlan, order: ByteOrder, base: seq<RowView>, rows: seq<RowView>, image: Bytes)
    requires ValidGeometry(plan.geometry) && |image| == ByteCount(plan.geometry)
  {
    && base <= rows && |rows| <= |base| + plan.geometry.height * plan.geometry.channels
    && forall n | 0 <= n < |rows| - |base| ::
         rows[|base| + n] == ExpectedRow(plan.geometry, plan.storage, order, image, n)
  }

  /** All of them. */
  ghost predicate RowsOf(plan: ImagePlan, order: ByteOrder, base: seq<RowView>, rows: seq<RowView>, image: Bytes)
    requires ValidGeometry(plan.geometry) && |image| == ByteCount(plan.geometry)
  {
    RowsFront(plan, order, base, rows, image) && |rows| == |base| + plan.geometry.height * plan.geometry.channels
  }

  /** Rows made of the first stored bytes are the first rows of the image. */
  lemma OfferedRowsAreSlices(plan: ImagePlan, order: ByteOrder, base: seq<RowView>, rows: seq<RowView>, fed: Bytes, stored: Bytes)
    requires ValidGeometry(plan.geometry) && |stored| == ByteCount(plan.geometry) && fed <= stored
    requires RowsMatch(plan, order, base, rows, fed)
    ensures RowsFront(plan, order, base, rows, Delivered(plan.geometry, stored, plan.storage, Planar, order != plan.order))
  {
    RowsMatchMore(plan, order, base, rows, fed, stored[|fed|..]);
    assert fed + stored[|fed|..] == stored;
    var g := plan.geometry;
    RowCount(plan, order, base, rows, stored);
    hide RowFrom, ExpectedRow, Delivered, ByteCount, HasRow;
    var image := Delivered(g, stored, plan.storage, Planar, order != plan.order);
    forall n | 0 <= n < |rows| - |base|
      ensures rows[|base| + n] == ExpectedRow(g, plan.storage, order, image, n)
    {
      assert RowMatches(plan, order, |base|, rows, stored, n);
      RowsAreSlices(g, plan.storage, order, order != plan.order, stored, n);
    }
  }

  lemma RowCount(plan: ImagePlan, order: ByteOrder, base: seq<RowView>, rows: seq<RowView>, fed: Bytes)
    requires ValidGeometry(plan.geometry) && RowsMatch(plan, order, base, rows, fed)
    ensures base <= rows && |rows| <= |base| + plan.geometry.height * plan.geometry.channels
  {
    RowGeometry(plan.geometry, plan.storage);
    if |rows| > |base| {
      assert RowMatches(plan, order, |base|, rows, fed, |rows| - |base| - 1);
    }
    hide RowFrom, ByteCount;
  }

  /** Both delivery loops; `got` has been read and `fed` is what it decodes to. */
  method DeliverRows(source: ByteSource, codec: Codec, d: RowDelivery, ghost data: Bytes)
    returns (r: Result<()>, ghost got: Bytes, ghost fed: Bytes)
    requires d.Shape() && ValidPlan(d.plan) && d.plan.compression.kind == codec.kind && PiecesInOrder(d.plan)
    requires d.Holds([], 0) && d.rowFill == 0 && d.hashed == []
    modifies source, d, d.sink, d.sourceRow, d.planeRow
    ensures old(source.transcript) <= source.transcript && ObtainedFront(d.plan.block, old(source.transcript), source.transcript, got)
    ensures StoredFront(codec, d.plan, got, fed)
    ensures Supplies(source, d.plan.block, data) ==> got <= data
    ensures RowsMatch(d.plan, d.order, d.base, d.sink.rows, fed)
    ensures r.Ok? ==>
              && |got| == BlockSize(d.plan.block) && StoredPixels(codec, d.plan, got) == Ok(fed)
              && d.Holds(fed, d.rowFill) && d.rowFill == 0
              && (d.plan.expectedDigest.Some? ==> d.hashed == got)
              && Obtained(d.plan.block, old(source.transcript), source.transcript, got)
    ensures Supplies(source, d.plan.block, data) && Willing(d.sink) ==>
              && |data| == BlockSize(d.plan.block)
              && (r.Ok? <==> StoredPixels(codec, d.plan, data).Ok?)
              && (r.Ok? ==> got == data)
  {
    hide Supplies, Obtained, ObtainedFront, RowsMatch, ByteCount, RowDelivery.Holds, Willing, ValidPlan, StoredPixels;
    if Supplies(source, d.plan.block, data) {
      SuppliesSize(source, d.plan.block, data);
    }
    if d.plan.compression.kind == NoCodec {
      r, got := DeliverPlain(source, d, data);
      fed := got;
      if r.Ok? {
        UncompressedPixels(codec, d.plan, got);
      }
      PlainPixels(codec, d.plan, data);
    } else {
      r, got, fed := DeliverSubblocks(source, codec, d, data);
    }
  }

  lemma PlainPixels(codec: Codec, plan: ImagePlan, data: Bytes)
    requires ValidPlan(plan) && codec.kind == plan.compression.kind == NoCodec
    ensures |data| == BlockSize(plan.block) ==> StoredPixels(codec, plan, data).Ok?
  {
    if |data| == BlockSize(plan.block) {
      UncompressedPixels(codec, plan, data);
    }
  }

  /** `first` was read as a whole, before anything else, and has the declared digest. */
  ghost predicate Verified(plan: ImagePlan, digest: Bytes -> Bytes, before: Bytes, after: Bytes, first: Bytes) {
    plan.expectedDigest.Some? ==>
      && |first| == BlockSize(plan.block)
      && digest(first) == plan.expectedDigest.value
      && (if plan.block.EmbeddedBlock? then first == plan.block.bytes else before + first <= after)
  }

  /** The sink has been given the rows of the Planar image that these serialized bytes stand for. */
  ghost predicate DeliversRows(
    env: Environment, plan: ImagePlan, order: ByteOrder, serialized: Bytes, base: seq<RowView>, rows: seq<RowView>)
    requires ValidPlan(plan) && env.codec.kind == plan.compression.kind
  {
    && |serialized| == BlockSize(plan.block)
    && DigestMatches(plan, env.digest, serialized)
    && StoredPixels(env.codec, plan, serialized).Ok?
    && var stored := StoredPixels(env.codec, plan, serialized).value;
       RowsOf(plan, order, base, rows, Delivered(plan.geometry, stored, plan.storage, Planar, order != plan.order))
  }

  lemma RowsDelivered(
    env: Environment, plan: ImagePlan, order: ByteOrder, serialized: Bytes, base: seq<RowView>, rows: seq<RowView>, fed: Bytes)
    requires ValidPlan(plan) && env.codec.kind == plan.compression.kind
    requires |serialized| == BlockSize(plan.block) && DigestMatches(plan, env.digest, serialized)
    requires StoredPixels(env.codec, plan, serialized) == Ok(fed)
    requires RowsMatch(plan, order, base, rows, fed) && |rows| == |base| + plan.geometry.height * plan.geometry.channels
    ensures DeliversRows(env, plan, order, serialized, base, rows)
  {
    hide StoredPixels, RowsMatch, Delivered, RowsFront;
    OfferedRowsAreSlices(plan, order, base, rows, fed, fed);
  }

  /** Row streaming refines the whole read: the rows are slices of what `read_image_into` leaves in a Planar buffer. */
  lemma StreamingRefinesWholeRead(
    env: Environment, plan: ImagePlan, order: ByteOrder, serialized: Bytes, base: seq<RowView>, rows: seq<RowView>, image: Bytes, n: int)
    requires ValidPlan(plan) && env.codec.kind == plan.compression.kind
    requires DeliversRows(env, plan, order, serialized, base, rows)
    requires Delivers(env.codec, plan, env.digest, serialized, Planar, order != plan.order, image)
    requires 0 <= n < plan.geometry.height * plan.geometry.channels
    ensures |rows| == |base| + plan.geometry.height * plan.geometry.channels && |image| == ByteCount(plan.geometry)
    ensures var g, view := plan.geometry, rows[|base| + n];
            && view.channel == ChannelOfRow(g, plan.storage, n) && 0 <= view.channel < g.channels
            && view.row == RowOfRow(g, plan.storage, n) && 0 <= view.row < g.height
            && view.order == order
            && 0 <= PlanarRowStart(g, view.channel, view.row)
            && PlanarRowStart(g, view.channel, view.row) + PlaneRowBytes(g) <= |image|
            && view.bytes == image[PlanarRowStart(g, view.channel, view.row)..PlanarRowStart(g, view.channel, view.row) + PlaneRowBytes(g)]
  {
    hide StoredPixels, Delivered, ByteCount, PlanarRowStart, ChannelOfRow, RowOfRow;
    ChannelInRange(plan.geometry, plan.storage, n);
    PlanarRowInImage(plan.geometry, ChannelOfRow(plan.geometry, plan.storage, n), RowOfRow(plan.geometry, plan.storage, n));
    assert rows[|base| + n] == ExpectedRow(plan.geometry, plan.storage, order, image, n);
  }

  /** The number of the row with this channel and row index: channel by channel, or row by row. */
  function RowNumber(g: Geometry, storage: PixelStorage, channel: int, y: int): int {
    if storage == Planar then channel * g.height + y else y * g.channels + channel
  }

  /** The row with this number is that of the channel and row index, and its sample at `x` has the stored value. */
  ghost predicate RowPictures(
    plan: ImagePlan, order: ByteOrder, stored: Bytes, base: nat, rows: seq<RowView>, channel: int, x: int, y: int)
    requires ValidGeometry(plan.geometry) && S.InImage(plan.geometry, channel, x, y) && |stored| == ByteCount(plan.geometry)
  {
    var g, n := plan.geometry, base + RowNumber(plan.geometry, plan.storage, channel, y);
    var at := x * S.Width(g.format);
    && 0 <= n < |rows| && rows[n].channel == channel && rows[n].row == y && rows[n].order == order
    && 0 <= at && at + S.Width(g.format) <= |rows[n].bytes|
    && S.Value(g.format, rows[n].bytes[at..at + S.Width(g.format)], order) == S.SampleOf(g, stored, plan.storage, plan.order, channel, x, y)
  }

  /** Together the rows are the stored picture, in the byte order that was asked for. */
  ghost predicate RowsPicture(env: Environment, plan: ImagePlan, order: ByteOrder, serialized: Bytes, base: nat, rows: seq<RowView>)
    requires ValidPlan(plan) && env.codec.kind == plan.compression.kind
  {
    && |serialized| == BlockSize(plan.block) && StoredPixels(env.codec, plan, serialized).Ok?
    && |rows| == base + plan.geometry.height * plan.geometry.channels
    && forall channel, x, y | S.InImage(plan.geometry, channel, x, y) ::
         RowPictures(plan, order, StoredPixels(env.codec, plan, serialized).value, base, rows, channel, x, y)
  }

  lemma RowNumberIs(g: Geometry, storage: PixelStorage, channel: int, y: int)
    requires ValidGeometry(g) && 0 <= channel < g.channels && 0 <= y < g.height
    ensures var n := RowNumber(g, storage, channel, y);
            0 <= n < g.height * g.channels && ChannelOfRow(g, storage, n) == channel && RowOfRow(g, storage, n) == y
  {
    Mul.DivMod(channel, y, g.height);
    Mul.DivMod(y, channel, g.channels);
    Mul.Index(channel, y, g.channels, g.height);
    Mul.Index(y, channel, g.height, g.channels);
    assert g.channels * g.height == g.height * g.channels;
  }

  /** A sample of a row is that sample of the Planar image. */
  lemma SampleInRow(g: Geometry, image: Bytes, channel: int, x: int, y: int)
    requires ValidGeometry(g) && |image| == ByteCount(g) && S.InImage(g, channel, x, y)
    requires var start := PlanarRowStart(g, channel, y); 0 <= start && start + PlaneRowBytes(g) <= |image|
    ensures var start, at := PlanarRowStart(g, channel, y), x * S.Width(g.format);
            && 0 <= at && at + S.Width(g.format) <= PlaneRowBytes(g)
            && image[start..start + PlaneRowBytes(g)][at..at + S.Width(g.format)] == S.BytesOf(g, image, Planar, channel, x, y)
  {
    var size, row := S.Width(g.format), channel * g.height + y;
    Mul.Slice(x, g.width, size);
    S.PlaceIs(g, Planar, channel, x, y);
    RowTimes(row, g.width, x, size);
    assert PlaneRowBytes(g) == g.width * size && S.Place(g, Planar, channel, x, y) == row * g.width + x;
    SliceOfSlice(image, row * (g.width * size), g.width * size, x * size, size);
    assert S.BytesOf(g, image, Planar, channel, x, y) == image[row * (g.width * size) + x * size..row * (g.width * size) + x * size + size];
  }

  lemma RowTimes(row: int, width: int, x: int, size: int)
    ensures (row * width + x) * size == row * (width * size) + x * size
  {
    assert (row * width + x) * size == row * width * size + x * size;
    assert row * width * size == row * (width * size);
  }

  lemma SliceOfSlice(bytes: Bytes, start: int, length: int, at: int, size: int)
    requires 0 <= start && start + length <= |bytes| && 0 <= at && 0 <= size && at + size <= length
    ensures bytes[start..start + length][at..at + size] == bytes[start + at..start + at + size]
  {
    var inner, outer := bytes[start..start + length][at..at + size], bytes[start + at..start + at + size];
    assert |inner| == |outer| && forall i | 0 <= i < size :: inner[i] == outer[i];
  }

  lemma RowIsPicture(
    env: Environment, plan: ImagePlan, order: ByteOrder, serialized: Bytes, base: seq<RowView>, rows: seq<RowView>, channel: int, x: int, y: int)
    requires ValidPlan(plan) && env.codec.kind == plan.compression.kind && DeliversRows(env, plan, order, serialized, base, rows)
    requires S.InImage(plan.geometry, channel, x, y)
    ensures RowPictures(plan, order, StoredPixels(env.codec, plan, serialized).value, |base|, rows, channel, x, y)
  {
    var g, stored := plan.geometry, StoredPixels(env.codec, plan, serialized).value;
    var image, n := Delivered(g, stored, plan.storage, Planar, order != plan.order), RowNumber(g, plan.storage, channel, y);
    RowNumberIs(g, plan.storage, channel, y);
    StreamingRefinesWholeRead(env, plan, order, serialized, base, rows, image, n);
    S.DeliveredIsSamePicture(g, stored, plan.storage, plan.order, Planar, order);
    hide DeliversRows, Delivered, StoredPixels, ChannelOfRow, RowOfRow, ByteCount, PlanarRowStart, PlaneRowBytes, RowNumber, S.Value, S.BytesOf;
    SampleInRow(g, image, channel, x, y);
    assert S.SampleOf(g, image, Planar, order, channel, x, y) == S.SampleOf(g, stored, plan.storage, plan.order, channel, x, y);
  }

  lemma RowsArePicture(env: Environment, plan: ImagePlan, order: ByteOrder, serialized: Bytes, base: seq<RowView>, rows: seq<RowView>)
    requires ValidPlan(plan) && env.codec.kind == plan.compression.kind && DeliversRows(env, plan, order, serialized, base, rows)
    ensures RowsPicture(env, plan, order, serialized, |base|, rows)
  {
    hide StoredPixels, RowPictures, Delivered;
    forall channel, x, y | S.InImage(plan.geometry, channel, x, y)
      ensures RowPictures(plan, order, StoredPixels(env.codec, plan, serialized).value, |base|, rows, channel, x, y)
    {
      RowIsPicture(env, plan, order, serialized, base, rows, channel, x, y);
    }
  }

  lemma FirstPassVerified(plan: ImagePlan, digest: Bytes -> Bytes, before: Bytes, middle: Bytes, after: Bytes, first: Bytes)
    requires Obtained(plan.block, before, middle, first) && middle <= after
    requires plan.expectedDigest.Some? ==> |first| == BlockSize(plan.block) && digest(first) == plan.expectedDigest.value
    ensures Verified(plan, digest, before, after, first)
  {
  }

  lemma NothingFed(codec: Codec, plan: ImagePlan, order: ByteOrder, base: seq<RowView>)
    requires ValidPlan(plan) && codec.kind == plan.compression.kind
    ensures StoredFront(codec, plan, [], []) && RowsMatch(plan, order, base, base, [])
  {
    RowsMatchNothing(plan, order, base, []);
    if plan.compression.kind != NoCodec {
      RestoredMore(plan, [], []);
      AdvancedNothing(codec, plan.compression.subblocks);
      assert plan.compression.subblocks[0..] == plan.compression.subblocks;
      StoredFrontIs(codec, plan, 0, [], []);
    }
  }

  /** Rows that were offered are right, whether or not the rest of the block could be read, decoded or delivered. */
  lemma OfferedRowsAreRight(
    codec: Codec, plan: ImagePlan, order: ByteOrder, base: seq<RowView>, rows: seq<RowView>, got: Bytes, fed: Bytes, data: Bytes)
    requires ValidPlan(plan) && plan.compression.kind == codec.kind && PiecesInOrder(plan)
    requires RowsMatch(plan, order, base, rows, fed) && StoredFront(codec, plan, got, fed)
    requires got <= data && |data| == BlockSize(plan.block) && StoredPixels(codec, plan, data).Ok?
    ensures RowsFront(plan, order, base, rows,
                      Delivered(plan.geometry, StoredPixels(codec, plan, data).value, plan.storage, Planar, order != plan.order))
  {
    StoredFrontIsFront(codec, plan, got, fed, data);
    hide StoredPixels, RowsMatch, Delivered, RowsFront, StoredFront;
    OfferedRowsAreSlices(plan, order, base, rows, fed, StoredPixels(codec, plan, data).value);
  }

  /** The second pass, which delivers, and the comparison of its own digest. */
  method DeliverVerified(source: ByteSource, env: Environment, plan: ImagePlan, sink: RowSink, order: ByteOrder, ghost data: Bytes)
    returns (r: Result<RowSummary>, ghost serialized: Bytes, ghost fed: Bytes)
    requires ValidPlan(plan) && env.codec.kind == plan.compression.kind && PiecesInOrder(plan)
    modifies source, sink
    ensures old(source.transcript) <= source.transcript
    ensures ObtainedFront(plan.block, old(source.transcript), source.transcript, serialized)
    ensures RowsMatch(plan, order, old(sink.rows), sink.rows, fed) && StoredFront(env.codec, plan, serialized, fed)
    ensures Supplies(source, plan.block, data) ==> serialized <= data
    ensures r.Ok? ==>
              && r.value.rows as int == plan.geometry.height * plan.geometry.channels
              && r.value.bytes as int == ByteCount(plan.geometry)
              && |serialized| == BlockSize(plan.block)
              && DeliversRows(env, plan, order, serialized, old(sink.rows), sink.rows)
              && Obtained(plan.block, old(source.transcript), source.transcript, serialized)
    ensures Supplies(source, plan.block, data) && Willing(sink) ==>
              && |data| == BlockSize(plan.block)
              && (r.Ok? <==> DigestMatches(plan, env.digest, data) && StoredPixels(env.codec, plan, data).Ok?)
              && (r.Ok? ==> serialized == data)
  {
    hide Supplies, Willing, ValidPlan, StoredPixels, Delivered, RowDelivery.Holds, RowsMatch, DeliversRows, ByteCount, Obtained,
         ObtainedFront, StoredFront;
    PlanFacts(plan);
    CompressedPlanFacts(plan);
    var d := new RowDelivery(plan, order, sink);
    var delivered;
    delivered, serialized, fed := DeliverRows(source, env.codec, d, data);
    if delivered.Err? {
      return Err(delivered.error), serialized, fed;
    }
    d.WholeExtent(fed);
    var summary := d.CheckExtent(fed);
    if plan.expectedDigest.Some? && env.digest(d.hashed) != plan.expectedDigest.value {
      return Err(ChecksumMismatch), serialized, fed;
    }
    RowsDelivered(env, plan, order, serialized, old(sink.rows), sink.rows, fed);
    return summary, serialized, fed;
  }

  /**
   `read_image_rows`, whatever the source answers and the sink accepts.
   A refused plan delivers nothing. No row is offered unless a first full pass over the block had the
   declared digest. However the call ends, the rows offered are, in order, the rows of the bytes that
   the second pass read and decoded so far; if the source supplies a block, they are the first rows of
   that block's Planar image. On success the sink has exactly the rows of the Planar image that
   `read_image_into` delivers for the one serialized string of the second pass, whose digest matches
   too. A source that supplies a block makes the outcome depend on that block alone.
   */
  method ReadImageRows(
    source: ByteSource, env: Environment, plan: ImagePlan, sink: RowSink, options: RowOptions, ghost data: Bytes)
    returns (r: Result<RowSummary>, ghost first: Bytes, ghost serialized: Bytes, ghost fed: Bytes)
    requires ValidPlan(plan) && env.codec.kind == plan.compression.kind
    modifies source, sink
    ensures RowRefusal(plan, options).Some? ==>
              r == Err(RowRefusal(plan, options).value) && sink.rows == old(sink.rows) && source.transcript == old(source.transcript)
    ensures RowsMatch(plan, options.order, old(sink.rows), sink.rows, fed) && StoredFront(env.codec, plan, serialized, fed)
    ensures sink.rows != old(sink.rows) ==> Verified(plan, env.digest, old(source.transcript), source.transcript, first)
    ensures HeardTwice(plan.block, old(source.transcript), source.transcript, first, serialized)
    ensures Supplies(source, plan.block, data) ==>
              && serialized <= data && |data| == BlockSize(plan.block)
              && (StoredPixels(env.codec, plan, data).Ok? ==>
                    RowsFront(plan, options.order, old(sink.rows), sink.rows,
                              Delivered(plan.geometry, StoredPixels(env.codec, plan, data).value, plan.storage, Planar,
                                        options.order != plan.order)))
    ensures r.Ok? ==>
              && r.value.rows as int == plan.geometry.height * plan.geometry.channels
              && r.value.bytes as int == ByteCount(plan.geometry)
              && DeliversRows(env, plan, options.order, serialized, old(sink.rows), sink.rows)
              && RowsPicture(env, plan, options.order, serialized, |old(sink.rows)|, sink.rows)
              && (plan.block.AttachedBlock? ==> source.transcript == old(source.transcript) + first + serialized)
              && (plan.block.EmbeddedBlock? ==> serialized == plan.block.bytes)
    ensures r.Ok? ==> WithinLimits(plan, options)
    ensures Supplies(source, plan.block, data) && Willing(sink) && WithinLimits(plan, options) ==>
              && |data| == BlockSize(plan.block)
              && (r.Ok? <==> DigestMatches(plan, env.digest, data) && StoredPixels(env.codec, plan, data).Ok?)
              && (r.Ok? ==> serialized == data)
  {
    RefusalIsExact(plan, options);
    hide WithinLimits, Supplies, Willing, ValidPlan, StoredPixels, Delivered, RowsMatch, Verified, DeliversRows, RowRefusal, ByteCount, Obtained,
         ObtainedFront, StoredFront, HeardTwice, RowsFront, DigestMatches, PiecesInOrder, RowsPicture;
    PlanFacts(plan);
    first, serialized, fed := [], [], [];
    NothingFed(env.codec, plan, options.order, sink.rows);
    HeardNothing(plan.block, source.transcript);
    NoRowsOffered(plan, options.order, sink.rows);
    if Supplies(source, plan.block, data) {
      SuppliesSize(source, plan.block, data);
    }
    var refused := CheckRows(plan, options);
    if refused.Some? {
      return Err(refused.value), first, serialized, fed;
    }
    AdmittedPieces(plan, options);
    ghost var start := source.transcript;
    var verified;
    verified, first := VerifyStreaming(source, plan, env.digest, data);
    ghost var middle := source.transcript;
    if verified.Err? {
      HeardOnce(plan.block, start, middle, first);
      return Err(verified.error), first, serialized, fed;
    }
    r, serialized, fed := DeliverVerified(source, env, plan, sink, options.order, data);
    FirstPassVerified(plan, env.digest, start, middle, source.transcript, first);
    HeardBoth(plan.block, start, middle, source.transcript, first, serialized);
    if Supplies(source, plan.block, data) && StoredPixels(env.codec, plan, data).Ok? {
      OfferedRowsAreRight(env.codec, plan, options.order, old(sink.rows), sink.rows, serialized, fed, data);
    }
    if r.Ok? {
      RowsArePicture(env, plan, options.order, serialized, old(sink.rows), sink.rows);
      TwoPasses(plan.block, start, middle, source.transcript, first, serialized);
    }
  }

  /** The first pass and then the second were handed over, as far as they go. */
  ghost predicate HeardTwice(block: BlockSource, before: Bytes, after: Bytes, first: Bytes, second: Bytes) {
    if block.EmbeddedBlock? then first <= block.bytes && second <= block.bytes else before + first + second <= after
  }

  lemma HeardNothing(block: BlockSource, heard: Bytes)
    ensures HeardTwice(block, heard, heard, [], [])
  {
  }

  lemma HeardOnce(block: BlockSource, before: Bytes, after: Bytes, first: Bytes)
    requires ObtainedFront(block, before, after, first)
    ensures HeardTwice(block, before, after, first, [])
  {
    assert before + first + [] == before + first;
  }

  lemma HeardBoth(block: BlockSource, before: Bytes, middle: Bytes, after: Bytes, first: Bytes, second: Bytes)
    requires Obtained(block, before, middle, first) && ObtainedFront(block, middle, after, second)
    ensures HeardTwice(block, before, after, first, second)
  {
  }

  lemma NoRowsOffered(plan: ImagePlan, order: ByteOrder, base: seq<RowView>)
    requires ValidGeometry(plan.geometry)
    ensures forall image: Bytes | |image| == ByteCount(plan.geometry) :: RowsFront(plan, order, base, base, image)
  {
    RowGeometry(plan.geometry, plan.storage);
  }

  lemma AdmittedPieces(plan: ImagePlan, options: RowOptions)
    requires RowRefusal(plan, options).None?
    ensures PiecesInOrder(plan)
  {
  }

  lemma TwoPasses(block: BlockSource, start: Bytes, middle: Bytes, end: Bytes, first: Bytes, second: Bytes)
    requires Obtained(block, start, middle, first) && Obtained(block, middle, end, second) && |second| == BlockSize(block)
    ensures block.AttachedBlock? ==> end == start + first + second
    ensures block.EmbeddedBlock? ==> second == block.bytes
  {
  }
}
