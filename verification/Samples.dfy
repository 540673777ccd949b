/**
 What pixels mean: where the sample of a channel at a column and row lies, and which numbers its bytes
 stand for in either byte order; and that every way of reading an image keeps both.
 */
module Samples {
  import opened Base
  import opened Pixels
  import Mul

  // ---------------------------------------------------------------- numbers

  /** The number that bytes stand for: the first one counts least in little-endian order, the last one in big-endian. */
  function Number(bytes: Bytes, order: ByteOrder): int {
    if bytes == [] then 0
    else if order == LittleEndian then bytes[0] + 0x100 * Number(bytes[1..], order)
    else bytes[|bytes| - 1] + 0x100 * Number(bytes[..|bytes| - 1], order)
  }

  predicate Turned(a: Bytes, b: Bytes) {
    |a| == |b| && forall i | 0 <= i < |a| :: a[i] == b[|a| - 1 - i]
  }

  lemma {:induction false} TurnedNumber(a: Bytes, b: Bytes)
    requires Turned(a, b)
    ensures Number(a, LittleEndian) == Number(b, BigEndian)
    decreases |a|
  {
    if a != [] {
      assert b[|b| - 1] == a[0];
      TurnedNumber(a[1..], b[..|b| - 1]);
    }
  }

  /** A sample is one number, or a real and an imaginary part; a floating-point number is given by its bits. */
  datatype Sample = Whole(bits: int) | Complex(re: int, im: int)

  function Width(format: SampleFormat): int {
    match format
    case UInt8 => 1
    case UInt16 => 2
    case UInt32 => 4
    case Float32 => 4
    case UInt64 => 8
    case Float64 => 8
    case Complex32 => 8
    case Complex64 => 16
  }

  function Value(format: SampleFormat, bytes: Bytes, order: ByteOrder): Sample
    requires |bytes| == Width(format)
  {
    match format
    case Complex32 => Complex(Number(bytes[..4], order), Number(bytes[4..], order))
    case Complex64 => Complex(Number(bytes[..8], order), Number(bytes[8..], order))
    case _ => Whole(Number(bytes, order))
  }

  // ---------------------------------------------------------------- places

  predicate InImage(g: Geometry, channel: int, x: int, y: int) {
    0 <= channel < g.channels && 0 <= x < g.width && 0 <= y < g.height
  }

  /** Planar storage has one channel after the other, Normal storage all channels of one pixel together. */
  function Place(g: Geometry, storage: PixelStorage, channel: int, x: int, y: int): int {
    if storage == Planar then (channel * g.height + y) * g.width + x else (y * g.width + x) * g.channels + channel
  }

  lemma PlaceIs(g: Geometry, storage: PixelStorage, channel: int, x: int, y: int)
    requires ValidGeometry(g) && InImage(g, channel, x, y)
    ensures Place(g, storage, channel, x, y) == SampleAt(storage, g, channel, y * g.width + x)
    ensures 0 <= y * g.width + x < PixelCount(g)
    ensures 0 <= Place(g, storage, channel, x, y) < SampleCount(g)
    ensures 0 <= Place(g, storage, channel, x, y) * Width(g.format)
    ensures Place(g, storage, channel, x, y) * Width(g.format) + Width(g.format) <= ByteCount(g)
  {
    Mul.Index(y, x, g.height, g.width);
    assert g.height * g.width == g.width * g.height;
    assert (channel * g.height + y) * g.width + x == channel * (g.width * g.height) + (y * g.width + x) by {
      Spread(channel, g.height, y, g.width);
    }
    CoordinatesOf(storage, g, channel, y * g.width + x);
    Mul.Slice(Place(g, storage, channel, x, y), SampleCount(g), Width(g.format));
  }

  lemma Spread(c: int, h: int, y: int, w: int)
    ensures (c * h + y) * w == c * (w * h) + y * w
  {
    assert (c * h + y) * w == c * h * w + y * w;
    assert c * h * w == c * (w * h);
  }

  /** The bytes of one sample of an image in this storage. */
  function BytesOf(g: Geometry, image: Bytes, storage: PixelStorage, channel: int, x: int, y: int): (bytes: Bytes)
    requires ValidGeometry(g) && InImage(g, channel, x, y) && |image| == ByteCount(g)
    ensures |bytes| == Width(g.format)
  {
    PlaceIs(g, storage, channel, x, y);
    var at := Place(g, storage, channel, x, y) * Width(g.format);
    image[at..at + Width(g.format)]
  }

  /** The value of one sample of an image in this storage and byte order. */
  function SampleOf(g: Geometry, image: Bytes, storage: PixelStorage, order: ByteOrder, channel: int, x: int, y: int): Sample
    requires ValidGeometry(g) && InImage(g, channel, x, y) && |image| == ByteCount(g)
  {
    Value(g.format, BytesOf(g, image, storage, channel, x, y), order)
  }

  /** Two images, each in its storage and byte order, have the same value at every place. */
  ghost predicate SamePicture(
    g: Geometry, a: Bytes, storage: PixelStorage, order: ByteOrder, b: Bytes, otherStorage: PixelStorage, otherOrder: ByteOrder)
    requires ValidGeometry(g)
  {
    && |a| == |b| == ByteCount(g)
    && forall channel, x, y | InImage(g, channel, x, y) ::
         SampleOf(g, a, storage, order, channel, x, y) == SampleOf(g, b, otherStorage, otherOrder, channel, x, y)
  }

  // ---------------------------------------------------------------- delivery keeps every value

  /** A delivered sample has the bytes of the stored one, each component turned around if the order changes. */
  lemma DeliveredBytes(
    g: Geometry, stored: Bytes, from: PixelStorage, to: PixelStorage, swap: bool, channel: int, x: int, y: int, b: int)
    requires ValidGeometry(g) && |stored| == ByteCount(g) && InImage(g, channel, x, y) && 0 <= b < Width(g.format)
    ensures var here := InputByte(b, ComponentSize(g.format), swap);
            && 0 <= here < Width(g.format)
            && BytesOf(g, Delivered(g, stored, from, to, swap), to, channel, x, y)[b] == BytesOf(g, stored, from, channel, x, y)[here]
  {
    var size, pixel := SampleSize(g.format), y * g.width + x;
    var sample := Place(g, to, channel, x, y);
    PlaceIs(g, to, channel, x, y);
    PlaceIs(g, from, channel, x, y);
    CoordinatesOf(to, g, channel, pixel);
    InputByteInSample(b, g.format, swap);
    hide Delivered, Place, SampleAt, ChannelOf, PixelOf, ByteCount, InputByte, ComponentSize;
    var k := sample * size + b;
    Mul.DivMod(sample, b, size);
    DeliveredAt(g, stored, from, to, swap, k);
    assert Remap(to, from, g, sample) == Place(g, from, channel, x, y);
  }

  /** Byte by byte, the first sample comes from the second. */
  predicate ComesFrom(format: SampleFormat, a: Bytes, b: Bytes, swap: bool) {
    && |a| == |b| == Width(format)
    && forall i | 0 <= i < Width(format) ::
         var here := InputByte(i, ComponentSize(format), swap);
         0 <= here < Width(format) && a[i] == b[here]
  }

  lemma ComesFromAt(format: SampleFormat, a: Bytes, b: Bytes, swap: bool, i: int)
    requires ComesFrom(format, a, b, swap) && 0 <= i < Width(format)
    ensures var here := InputByte(i, ComponentSize(format), swap);
            0 <= here < Width(format) && a[i] == b[here]
  {
  }

  lemma SampleComesFrom(
    g: Geometry, stored: Bytes, from: PixelStorage, to: PixelStorage, swap: bool, channel: int, x: int, y: int)
    requires ValidGeometry(g) && |stored| == ByteCount(g) && InImage(g, channel, x, y)
    ensures ComesFrom(g.format, BytesOf(g, Delivered(g, stored, from, to, swap), to, channel, x, y), BytesOf(g, stored, from, channel, x, y), swap)
  {
    hide Delivered, BytesOf, InputByte, ByteCount;
    forall b | 0 <= b < Width(g.format)
      ensures var here := InputByte(b, ComponentSize(g.format), swap);
              && 0 <= here < Width(g.format)
              && BytesOf(g, Delivered(g, stored, from, to, swap), to, channel, x, y)[b] == BytesOf(g, stored, from, channel, x, y)[here]
    {
      DeliveredBytes(g, stored, from, to, swap, channel, x, y, b);
    }
  }

  /** Where a byte comes from in a sample of two components. */
  lemma MirrorInHalves(j: int, half: int)
    requires (half == 4 || half == 8) && 0 <= j < 2 * half
    ensures InputByte(j, half, true) == if j < half then half - 1 - j else 3 * half - 1 - j
  {
  }

  lemma MirrorInOne(j: int, size: int)
    requires 0 <= j < size
    ensures InputByte(j, size, true) == size - 1 - j
  {
    Mul.DivMod(0, j, size);
  }

  /** Turning around every component of a sample is reading it in the other order. */
  lemma SwappedValue(format: SampleFormat, a: Bytes, b: Bytes, order: ByteOrder, other: ByteOrder)
    requires ComesFrom(format, a, b, order != other)
    ensures Value(format, a, order) == Value(format, b, other)
  {
    hide Number, InputByte, ComesFrom;
    var n, swap := Width(format), order != other;
    assert |a| == |b| == n by {
      SameWidth(format, a, b, swap);
    }
    forall i | 0 <= i < n
      ensures 0 <= InputByte(i, ComponentSize(format), swap) < n && a[i] == b[InputByte(i, ComponentSize(format), swap)]
    {
      ComesFromAt(format, a, b, swap, i);
    }
    if !swap {
      NotSwapped(format, a, b);
    } else if format == Complex32 || format == Complex64 {
      HalvesTurned(format, a, b, order, other);
    } else {
      forall i | 0 <= i < n
        ensures a[i] == b[n - 1 - i]
      {
        MirrorInOne(i, n);
      }
      EitherTurned(a, b, order, other);
    }
  }

  lemma SameWidth(format: SampleFormat, a: Bytes, b: Bytes, swap: bool)
    requires ComesFrom(format, a, b, swap)
    ensures |a| == |b| == Width(format)
  {
  }

  lemma NotSwapped(format: SampleFormat, a: Bytes, b: Bytes)
    requires ComesFrom(format, a, b, false)
    ensures a == b
  {
    forall i | 0 <= i < |a|
      ensures a[i] == b[i]
    {
      ComesFromAt(format, a, b, false, i);
    }
  }

  lemma EitherTurned(a: Bytes, b: Bytes, order: ByteOrder, other: ByteOrder)
    requires Turned(a, b) && order != other
    ensures Number(a, order) == Number(b, other)
  {
    if order == LittleEndian {
      TurnedNumber(a, b);
    } else {
      TurnedNumber(b, a);
    }
  }

  /** The real and the imaginary part, each for itself. */
  lemma HalvesTurned(format: SampleFormat, a: Bytes, b: Bytes, order: ByteOrder, other: ByteOrder)
    requires (format == Complex32 || format == Complex64) && ComesFrom(format, a, b, true) && order != other
    ensures |a| == |b| == Width(format)
    ensures var half := Width(format) / 2;
            Number(a[..half], order) == Number(b[..half], other) && Number(a[half..], order) == Number(b[half..], other)
  {
    hide Number, InputByte;
    var half := Width(format) / 2;
    forall i | 0 <= i < 2 * half
      ensures a[i] == b[if i < half then half - 1 - i else 3 * half - 1 - i]
    {
      ComesFromAt(format, a, b, true, i);
      MirrorInHalves(i, half);
    }
    hide ComesFrom;
    assert Turned(a[..half], b[..half]);
    assert Turned(a[half..], b[half..]);
    EitherTurned(a[..half], b[..half], order, other);
    EitherTurned(a[half..], b[half..], order, other);
  }

  /** Whatever storage and byte order an image is delivered in, it is the same picture. */
  lemma DeliveredIsSamePicture(
    g: Geometry, stored: Bytes, from: PixelStorage, order: ByteOrder, to: PixelStorage, outputOrder: ByteOrder)
    requires ValidGeometry(g) && |stored| == ByteCount(g)
    ensures SamePicture(g, Delivered(g, stored, from, to, outputOrder != order), to, outputOrder, stored, from, order)
  {
    var image := Delivered(g, stored, from, to, outputOrder != order);
    hide Delivered, Value, BytesOf, ComesFrom, ByteCount;
    forall channel, x, y | InImage(g, channel, x, y)
      ensures SampleOf(g, image, to, outputOrder, channel, x, y) == SampleOf(g, stored, from, order, channel, x, y)
    {
      SampleComesFrom(g, stored, from, to, outputOrder != order, channel, x, y);
      SwappedValue(g.format, BytesOf(g, image, to, channel, x, y), BytesOf(g, stored, from, channel, x, y), outputOrder, order);
    }
  }
}
