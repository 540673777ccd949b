/** Row by row delivery: which bytes of the stored block make up the n-th row, and that it is a slice of the Planar image. */
module Rows {
  import opened Base
  import opened Pixels
  import Mul

  datatype RowView = RowView(channel: int, row: int, order: ByteOrder, bytes: Bytes)

  function PlaneRowBytes(g: Geometry): int {
    g.width * SampleSize(g.format)
  }

  /** A stored row holds one channel if the storage is Planar and all of them if it is Normal. */
  function PlanesPerRow(g: Geometry, storage: PixelStorage): int {
    if storage == Planar then 1 else g.channels
  }

  function SourceRowBytes(g: Geometry, storage: PixelStorage): int {
    PlaneRowBytes(g) * PlanesPerRow(g, storage)
  }

  function SourceRowCount(g: Geometry, storage: PixelStorage): int {
    if storage == Planar then g.height * g.channels else g.height
  }

  /** Channel-major for Planar, row and then channel for Normal. */
  function ChannelOfRow(g: Geometry, storage: PixelStorage, n: int): int
    requires ValidGeometry(g)
  {
    if storage == Planar then n / g.height else n % g.channels
  }

  function RowOfRow(g: Geometry, storage: PixelStorage, n: int): int
    requires ValidGeometry(g)
  {
    if storage == Planar then n % g.height else n / g.channels
  }

  lemma RowGeometry(g: Geometry, storage: PixelStorage)
    requires ValidGeometry(g)
    ensures 0 < PlaneRowBytes(g) <= SourceRowBytes(g, storage)
    ensures SourceRowCount(g, storage) * SourceRowBytes(g, storage) == ByteCount(g)
    ensures SourceRowCount(g, storage) * PlanesPerRow(g, storage) == g.height * g.channels
    ensures g.height * g.channels * PlaneRowBytes(g) == ByteCount(g)
    ensures 0 < SourceRowCount(g, storage) <= g.height * g.channels <= ByteCount(g)
    ensures SourceRowBytes(g, storage) <= ByteCount(g)
  {
    var w, h, c, s := g.width, g.height, g.channels, SampleSize(g.format);
    Products(w, h, c, s);
    Mul.Monotone(1, s, w);
    Mul.Monotone(1, c, w * s);
    Mul.Monotone(1, h, c);
    Mul.Monotone(1, c, h);
    Mul.Monotone(1, w * s, h * c);
    Mul.Monotone(1, SourceRowCount(g, storage), SourceRowBytes(g, storage));
  }

  lemma Products(w: int, h: int, c: int, s: int)
    ensures h * c * (w * s) == w * h * c * s
    ensures h * (w * s * c) == w * h * c * s
  {
    assert h * c * (w * s) == h * c * w * s;
    assert w * h * c == h * c * w;
    assert w * s * c == w * c * s;
    assert h * (w * c * s) == h * w * c * s;
  }

  /** One channel of a stored row. */
  function PlaneRow(g: Geometry, storage: PixelStorage, row: Bytes, channel: int): (plane: Bytes)
    requires ValidGeometry(g) && |row| == SourceRowBytes(g, storage) && 0 <= channel < g.channels
    ensures |plane| == PlaneRowBytes(g)
  {
    if storage == Planar then row
    else
      Mul.Monotone(0, g.width, SampleSize(g.format));
      seq(PlaneRowBytes(g), k requires 0 <= k < PlaneRowBytes(g) =>
        GatherIndex(g, channel, k);
        row[(k / SampleSize(g.format) * g.channels + channel) * SampleSize(g.format) + k % SampleSize(g.format)])
  }

  lemma GatherIndex(g: Geometry, channel: int, k: int)
    requires ValidGeometry(g) && 0 <= channel < g.channels && 0 <= k < PlaneRowBytes(g)
    ensures var size := SampleSize(g.format);
            0 <= (k / size * g.channels + channel) * size + k % size < PlaneRowBytes(g) * g.channels
  {
    var size := SampleSize(g.format);
    Mul.QuotientRange(k, g.width, size);
    Mul.Index(k / size, channel, g.width, g.channels);
    Mul.Index(k / size * g.channels + channel, k % size, g.width * g.channels, size);
    assert g.width * g.channels * size == g.width * size * g.channels;
  }

  function MaybeSwapped(bytes: Bytes, component: int, swap: bool): (r: Bytes)
    requires 0 < component
    ensures |r| == |bytes|
  {
    if swap then Swapped(bytes, component) else bytes
  }

  /** The index of the stored row that row `n` of the delivery comes from. */
  function SourceRowOf(g: Geometry, storage: PixelStorage, n: int): int
    requires ValidGeometry(g)
  {
    n / PlanesPerRow(g, storage)
  }

  lemma SourceRowRange(g: Geometry, storage: PixelStorage, n: int, rows: int)
    requires ValidGeometry(g) && 0 <= n < rows * PlanesPerRow(g, storage)
    ensures var at := SourceRowOf(g, storage, n) * SourceRowBytes(g, storage);
            && 0 <= SourceRowOf(g, storage, n) < rows
            && 0 <= at && at + SourceRowBytes(g, storage) <= rows * SourceRowBytes(g, storage)
  {
    var planes, size := PlanesPerRow(g, storage), SourceRowBytes(g, storage);
    assert 0 < size by {
      RowGeometry(g, storage);
    }
    hide SourceRowBytes;
    Mul.QuotientRange(n, rows, planes);
    Mul.Slice(n / planes, rows, size);
  }

  predicate HasRow(g: Geometry, storage: PixelStorage, n: int, size: int)
    requires ValidGeometry(g)
  {
    && 0 <= n < g.height * g.channels
    && var at := SourceRowOf(g, storage, n) * SourceRowBytes(g, storage); 0 <= at && at + SourceRowBytes(g, storage) <= size
  }

  lemma ChannelInRange(g: Geometry, storage: PixelStorage, n: int)
    requires ValidGeometry(g) && 0 <= n < g.height * g.channels
    ensures 0 <= ChannelOfRow(g, storage, n) < g.channels && 0 <= RowOfRow(g, storage, n) < g.height
  {
    if storage == Planar {
      Mul.QuotientRange(n, g.channels, g.height);
    } else {
      Mul.QuotientRange(n, g.height, g.channels);
    }
  }

  /** Row `n` made from the stored bytes read so far, as the streaming loops make it. */
  function RowFrom(g: Geometry, storage: PixelStorage, order: ByteOrder, swap: bool, fed: Bytes, n: int): (v: RowView)
    requires ValidGeometry(g) && HasRow(g, storage, n, |fed|)
    ensures v.channel == ChannelOfRow(g, storage, n) && v.row == RowOfRow(g, storage, n) && v.order == order
    ensures |v.bytes| == PlaneRowBytes(g)
  {
    ChannelInRange(g, storage, n);
    var at := SourceRowOf(g, storage, n) * SourceRowBytes(g, storage);
    RowView(ChannelOfRow(g, storage, n), RowOfRow(g, storage, n), order,
            MaybeSwapped(PlaneRow(g, storage, fed[at..at + SourceRowBytes(g, storage)], ChannelOfRow(g, storage, n)),
                         ComponentSize(g.format), swap))
  }

  /** Reading on does not change the rows that are complete. */
  lemma RowFromIsStable(g: Geometry, storage: PixelStorage, order: ByteOrder, swap: bool, fed: Bytes, more: Bytes, n: int)
    requires ValidGeometry(g) && HasRow(g, storage, n, |fed|)
    ensures HasRow(g, storage, n, |fed + more|)
    ensures RowFrom(g, storage, order, swap, fed + more, n) == RowFrom(g, storage, order, swap, fed, n)
  {
    assert 0 < SourceRowBytes(g, storage) by {
      RowGeometry(g, storage);
    }
    hide PlaneRow, SourceRowOf, SourceRowBytes, MaybeSwapped;
    var at := SourceRowOf(g, storage, n) * SourceRowBytes(g, storage);
    assert (fed + more)[at..at + SourceRowBytes(g, storage)] == fed[at..at + SourceRowBytes(g, storage)];
  }

  // ---------------------------------------------------------------- the rows are slices of the Planar image

  /** Where row (channel, row) of the Planar image starts. */
  function PlanarRowStart(g: Geometry, channel: int, row: int): int {
    (channel * g.height + row) * PlaneRowBytes(g)
  }

  lemma PlanarRowInImage(g: Geometry, channel: int, row: int)
    requires ValidGeometry(g) && 0 <= channel < g.channels && 0 <= row < g.height
    ensures 0 <= PlanarRowStart(g, channel, row) && PlanarRowStart(g, channel, row) + PlaneRowBytes(g) <= ByteCount(g)
  {
    RowGeometry(g, Planar);
    hide PlaneRowBytes, ByteCount, SourceRowBytes;
    Mul.Index(channel, row, g.channels, g.height);
    Mul.Slice(channel * g.height + row, g.height * g.channels, PlaneRowBytes(g));
  }

  /** The row that a caller expects: a slice of what `read_image_into` delivers in Planar storage. */
  function ExpectedRow(g: Geometry, storage: PixelStorage, order: ByteOrder, planar: Bytes, n: int): (v: RowView)
    requires ValidGeometry(g) && |planar| == ByteCount(g) && 0 <= n < g.height * g.channels
    ensures v.channel == ChannelOfRow(g, storage, n) && v.row == RowOfRow(g, storage, n) && v.order == order
    ensures |v.bytes| == PlaneRowBytes(g)
  {
    ChannelInRange(g, storage, n);
    var channel, row := ChannelOfRow(g, storage, n), RowOfRow(g, storage, n);
    PlanarRowInImage(g, channel, row);
    RowView(channel, row, order, planar[PlanarRowStart(g, channel, row)..PlanarRowStart(g, channel, row) + PlaneRowBytes(g)])
  }

  /** The stored byte behind byte `k` of plane row (channel, row), before any swap. */
  function RowByte(g: Geometry, storage: PixelStorage, channel: int, row: int, k: int): int {
    var size := SampleSize(g.format);
    SampleAt(storage, g, channel, row * g.width + k / size) * size + k % size
  }

  lemma WholeRowOfComponents(g: Geometry)
    ensures PlaneRowBytes(g) / ComponentSize(g.format) * ComponentSize(g.format) == PlaneRowBytes(g)
  {
    Mul3(g.width, ComponentParts(g.format), ComponentSize(g.format));
    Mul.DivMod(g.width * ComponentParts(g.format), 0, ComponentSize(g.format));
  }

  /** The swap stays inside the sample, so it may come before or after the gathering. */
  lemma SwapWithinRow(g: Geometry, k: int)
    requires 0 <= k < PlaneRowBytes(g)
    ensures var size, m := SampleSize(g.format), Mirror(k, ComponentSize(g.format));
            && 0 <= m < PlaneRowBytes(g)
            && m / size == k / size && m % size == InputByte(k % size, ComponentSize(g.format), true)
  {
    var size, component := SampleSize(g.format), ComponentSize(g.format);
    Mul.QuotientRange(k, g.width, size);
    Mul.Split(k, size);
    MirrorShift(k / size, ComponentParts(g.format), component, k % size);
    InputByteInSample(k % size, g.format, true);
    Mul.DivMod(k / size, Mirror(k % size, component), size);
    Mul.Index(k / size, Mirror(k % size, component), g.width, size);
  }

  /** Byte `k` of a stored row's channel, found in the block. */
  lemma PlaneRowByte(g: Geometry, storage: PixelStorage, stored: Bytes, n: int, k: int)
    requires ValidGeometry(g) && |stored| == ByteCount(g) && 0 <= n < g.height * g.channels && 0 <= k < PlaneRowBytes(g)
    ensures HasRow(g, storage, n, |stored|)
    ensures var channel, row := ChannelOfRow(g, storage, n), RowOfRow(g, storage, n);
            var at := SourceRowOf(g, storage, n) * SourceRowBytes(g, storage);
            && 0 <= channel < g.channels
            && 0 <= RowByte(g, storage, channel, row, k) < |stored|
            && PlaneRow(g, storage, stored[at..at + SourceRowBytes(g, storage)], channel)[k]
               == stored[RowByte(g, storage, channel, row, k)]
  {
    RowGeometry(g, storage);
    SourceRowRange(g, storage, n, SourceRowCount(g, storage));
    ChannelInRange(g, storage, n);
    var size := SampleSize(g.format);
    var channel, row := ChannelOfRow(g, storage, n), RowOfRow(g, storage, n);
    var at := SourceRowOf(g, storage, n) * SourceRowBytes(g, storage);
    Mul.QuotientRange(k, g.width, size);
    Mul.Split(k, size);
    if storage == Planar {
      Mul.Split(n, g.height);
      PlanarByte(g, n, k);
    } else {
      GatherIndex(g, channel, k);
      NormalByte(g, row, channel, k);
    }
  }

  lemma PlanarByte(g: Geometry, n: int, k: int)
    requires 0 <= n && 0 < g.height && 0 <= k
    ensures RowByte(g, Planar, n / g.height, n % g.height, k) == n * PlaneRowBytes(g) + k
  {
    var w: int, h: int, size: int := g.width, g.height, SampleSize(g.format);
    Mul.Split(n, h);
    Mul.Split(k, size);
    Mul.PlaneByRows(n / h, n % h, k / size, k % size, w, h, size);
  }

  lemma NormalByte(g: Geometry, row: int, channel: int, k: int)
    requires 0 <= k
    ensures var size := SampleSize(g.format);
            RowByte(g, Normal, channel, row, k)
            == row * (PlaneRowBytes(g) * g.channels) + ((k / size * g.channels + channel) * size + k % size)
  {
    Mul.PixelByRows(row, k / SampleSize(g.format), channel, k % SampleSize(g.format), g.width, g.channels, SampleSize(g.format));
  }

  /** The same stored byte, found from the Planar image. */
  lemma PlanarImageByte(g: Geometry, storage: PixelStorage, swap: bool, channel: int, row: int, k: int)
    requires ValidGeometry(g) && 0 <= channel < g.channels && 0 <= row < g.height && 0 <= k < PlaneRowBytes(g)
    ensures var size := SampleSize(g.format);
            && 0 <= PlanarRowStart(g, channel, row) + k < ByteCount(g)
            && StoredByte(g, storage, Planar, swap, PlanarRowStart(g, channel, row) + k)
               == SampleAt(storage, g, channel, row * g.width + k / size) * size + InputByte(k % size, ComponentSize(g.format), swap)
  {
    var size: int := SampleSize(g.format);
    var at := PlanarRowStart(g, channel, row) + k;
    assert 0 <= at < ByteCount(g) by {
      PlanarRowInImage(g, channel, row);
    }
    var pixel := row * g.width + k / size;
    assert 0 <= pixel < PixelCount(g) by {
      Mul.QuotientRange(k, g.width, size);
      Mul.Index(row, k / size, g.height, g.width);
      assert g.width * g.height == g.height * g.width;
    }
    var sample := SampleAt(Planar, g, channel, pixel);
    PlanarPosition(g, channel, row, k);
    CoordinatesOf(Planar, g, channel, pixel);
    hide PlanarRowStart, SampleAt, PixelCount, ByteCount, ChannelOf, PixelOf, StoredByte;
    RemapOfPlanar(g, storage, swap, channel, pixel, sample, at);
  }

  lemma PlanarPosition(g: Geometry, channel: int, row: int, k: int)
    requires 0 <= k
    ensures var size := SampleSize(g.format);
            var at := PlanarRowStart(g, channel, row) + k;
            && at / size == SampleAt(Planar, g, channel, row * g.width + k / size) && at % size == k % size
  {
    var w: int, h: int, size: int := g.width, g.height, SampleSize(g.format);
    Mul.Split(k, size);
    Mul.PlaneByRows(channel, row, k / size, k % size, w, h, size);
    Mul.DivMod(channel * (w * h) + (row * w + k / size), k % size, size);
  }

  lemma RemapOfPlanar(g: Geometry, storage: PixelStorage, swap: bool, channel: int, pixel: int, sample: int, at: int)
    requires ValidGeometry(g) && 0 <= at && sample == SampleAt(Planar, g, channel, pixel)
    requires at / SampleSize(g.format) == sample
    requires ChannelOf(Planar, g, sample) == channel && PixelOf(Planar, g, sample) == pixel
    ensures var size := SampleSize(g.format);
            StoredByte(g, storage, Planar, swap, at)
            == SampleAt(storage, g, channel, pixel) * size + InputByte(at % size, ComponentSize(g.format), swap)
  {
    hide SampleAt, ChannelOf, PixelOf, InputByte;
  }

  lemma RowFromByte(g: Geometry, storage: PixelStorage, order: ByteOrder, swap: bool, fed: Bytes, n: int, k: int)
    requires ValidGeometry(g) && HasRow(g, storage, n, |fed|) && 0 <= k < PlaneRowBytes(g)
    ensures var at := SourceRowOf(g, storage, n) * SourceRowBytes(g, storage);
            var channel := ChannelOfRow(g, storage, n);
            var source := if swap then Mirror(k, ComponentSize(g.format)) else k;
            && 0 <= channel < g.channels && 0 <= source < PlaneRowBytes(g)
            && RowFrom(g, storage, order, swap, fed, n).bytes[k]
               == PlaneRow(g, storage, fed[at..at + SourceRowBytes(g, storage)], channel)[source]
  {
    hide PlaneRow, Mirror;
    ChannelInRange(g, storage, n);
    WholeRowOfComponents(g);
    SwapWithinRow(g, k);
  }

  lemma RowBytesAgree(g: Geometry, storage: PixelStorage, order: ByteOrder, swap: bool, stored: Bytes, n: int, k: int)
    requires ValidGeometry(g) && |stored| == ByteCount(g) && 0 <= n < g.height * g.channels && 0 <= k < PlaneRowBytes(g)
    ensures HasRow(g, storage, n, |stored|)
    ensures RowFrom(g, storage, order, swap, stored, n).bytes[k]
         == ExpectedRow(g, storage, order, Delivered(g, stored, storage, Planar, swap), n).bytes[k]
  {
    hide Delivered, PlaneRow, Mirror, StoredByte, RowFrom, ExpectedRow, HasRow, ByteCount, PlaneRowBytes, ChannelOfRow, RowOfRow,
         PlanarRowStart, SourceRowBytes, SampleAt, RowByte;
    ChannelInRange(g, storage, n);
    var channel, row := ChannelOfRow(g, storage, n), RowOfRow(g, storage, n);
    var k' := if swap then Mirror(k, ComponentSize(g.format)) else k;
    SwapWithinRow(g, k);
    PlaneRowByte(g, storage, stored, n, k');
    RowFromByte(g, storage, order, swap, stored, n, k);
    ExpectedRowByte(g, storage, order, Delivered(g, stored, storage, Planar, swap), n, k);
    PlanarImageByte(g, storage, swap, channel, row, k);
    DeliveredAt(g, stored, storage, Planar, swap, PlanarRowStart(g, channel, row) + k);
    SameRowByte(g, storage, swap, channel, row, k);
  }

  lemma ExpectedRowByte(g: Geometry, storage: PixelStorage, order: ByteOrder, planar: Bytes, n: int, k: int)
    requires ValidGeometry(g) && |planar| == ByteCount(g) && 0 <= n < g.height * g.channels && 0 <= k < PlaneRowBytes(g)
    ensures var start := PlanarRowStart(g, ChannelOfRow(g, storage, n), RowOfRow(g, storage, n));
            && 0 <= start + k < |planar|
            && ExpectedRow(g, storage, order, planar, n).bytes[k] == planar[start + k]
  {
    ChannelInRange(g, storage, n);
    PlanarRowInImage(g, ChannelOfRow(g, storage, n), RowOfRow(g, storage, n));
    hide PlanarRowStart;
  }

  lemma SameRowByte(g: Geometry, storage: PixelStorage, swap: bool, channel: int, row: int, k: int)
    requires 0 <= k < PlaneRowBytes(g)
    ensures var size := SampleSize(g.format);
            RowByte(g, storage, channel, row, if swap then Mirror(k, ComponentSize(g.format)) else k)
            == SampleAt(storage, g, channel, row * g.width + k / size) * size + InputByte(k % size, ComponentSize(g.format), swap)
  {
    SwapWithinRow(g, k);
    hide Mirror, SampleAt;
  }

  /**
   Row streaming refines the whole read: every row made from the stored bytes is the matching slice
   of the Planar image.
   */
  lemma RowsAreSlices(g: Geometry, storage: PixelStorage, order: ByteOrder, swap: bool, stored: Bytes, n: int)
    requires ValidGeometry(g) && |stored| == ByteCount(g) && 0 <= n < g.height * g.channels
    ensures HasRow(g, storage, n, |stored|)
    ensures RowFrom(g, storage, order, swap, stored, n)
         == ExpectedRow(g, storage, order, Delivered(g, stored, storage, Planar, swap), n)
  {
    hide RowFrom, ExpectedRow, Delivered;
    RowGeometry(g, storage);
    SourceRowRange(g, storage, n, SourceRowCount(g, storage));
    var actual := RowFrom(g, storage, order, swap, stored, n);
    var expected := ExpectedRow(g, storage, order, Delivered(g, stored, storage, Planar, swap), n);
    forall k | 0 <= k < PlaneRowBytes(g)
      ensures actual.bytes[k] == expected.bytes[k]
    {
      RowBytesAgree(g, storage, order, swap, stored, n, k);
    }
    assert actual.bytes == expected.bytes;
  }
}
