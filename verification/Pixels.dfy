/** Where a sample lies in Planar and in Normal storage, and in which order its bytes come. */
module Pixels {
  import opened Base
  import Mul

  datatype PixelStorage = Planar | Normal

  datatype ByteOrder = LittleEndian | BigEndian

  datatype SampleFormat =
    | UInt8 | UInt16 | UInt32 | UInt64 | Float32 | Float64 | Complex32 | Complex64

  function SampleSize(format: SampleFormat): (n: U64) {
    match format
    case UInt8 => 1
    case UInt16 => 2
    case UInt32 => 4
    case UInt64 => 8
    case Float32 => 4
    case Float64 => 8
    case Complex32 => 8
    case Complex64 => 16
  }

  /** The part of a sample whose bytes turn around together; a complex sample has two. */
  function ComponentSize(format: SampleFormat): (n: U64) {
    match format
    case UInt8 => 1
    case UInt16 => 2
    case UInt32 => 4
    case UInt64 => 8
    case Float32 => 4
    case Float64 => 8
    case Complex32 => 4
    case Complex64 => 8
  }

  datatype Geometry = Geometry(width: U64, height: U64, channels: U64, format: SampleFormat)

  function PixelCount(g: Geometry): int {
    g.width * g.height
  }

  function SampleCount(g: Geometry): int {
    PixelCount(g) * g.channels
  }

  function ByteCount(g: Geometry): int {
    SampleCount(g) * SampleSize(g.format)
  }

  /** What the reader guarantees of a geometry before it touches a pixel. */
  predicate ValidGeometry(g: Geometry) {
    0 < g.width && 0 < g.height && 0 < g.channels && ByteCount(g) <= MAX_U64
  }

  lemma GeometryFacts(g: Geometry)
    requires ValidGeometry(g)
    ensures 0 < PixelCount(g) <= SampleCount(g) <= ByteCount(g) <= MAX_U64
    ensures SampleCount(g) / g.channels == PixelCount(g)
  {
    Mul.Index(g.width - 1, g.height - 1, g.width, g.height);
    Mul.Monotone(1, g.channels, PixelCount(g));
    Mul.Monotone(1, SampleSize(g.format), SampleCount(g));
    Mul.DivMod(PixelCount(g), 0, g.channels);
  }

  /** The three checked products of `plan_image_read` accept exactly the geometries whose bytes fit in 64 bits. */
  function CheckedByteCount(g: Geometry): Option<U64> {
    var pixels := CheckedMultiply(g.width, g.height);
    if pixels.None? then None else
    var samples := CheckedMultiply(pixels.value, g.channels);
    if samples.None? then None else CheckedMultiply(samples.value, SampleSize(g.format))
  }

  lemma CheckedByteCountExact(g: Geometry)
    requires 0 < g.width && 0 < g.height && 0 < g.channels
    ensures CheckedByteCount(g) == if ValidGeometry(g) then Some(ByteCount(g)) else None
  {
    CheckedMultiplyExact(g.width, g.height);
    Mul.Index(g.width - 1, g.height - 1, g.width, g.height);
    Mul.Monotone(1, g.channels, PixelCount(g));
    Mul.Monotone(1, SampleSize(g.format), SampleCount(g));
    if PixelCount(g) <= MAX_U64 {
      CheckedMultiplyExact(PixelCount(g), g.channels);
      if SampleCount(g) <= MAX_U64 {
        CheckedMultiplyExact(SampleCount(g), SampleSize(g.format));
      }
    }
  }

  // ---------------------------------------------------------------- sample order

  function ChannelOf(storage: PixelStorage, g: Geometry, sample: int): int
    requires ValidGeometry(g)
  {
    GeometryFacts(g);
    if storage == Planar then sample / PixelCount(g) else sample % g.channels
  }

  function PixelOf(storage: PixelStorage, g: Geometry, sample: int): int
    requires ValidGeometry(g)
  {
    GeometryFacts(g);
    if storage == Planar then sample % PixelCount(g) else sample / g.channels
  }

  function SampleAt(storage: PixelStorage, g: Geometry, channel: int, pixel: int): int {
    if storage == Planar then channel * PixelCount(g) + pixel else pixel * g.channels + channel
  }

  /** The index in storage `to` of the sample with this index in storage `from`. */
  function Remap(from: PixelStorage, to: PixelStorage, g: Geometry, sample: int): int
    requires ValidGeometry(g)
  {
    SampleAt(to, g, ChannelOf(from, g, sample), PixelOf(from, g, sample))
  }

  lemma CoordinatesOf(storage: PixelStorage, g: Geometry, channel: int, pixel: int)
    requires ValidGeometry(g) && 0 <= channel < g.channels && 0 <= pixel < PixelCount(g)
    ensures var sample := SampleAt(storage, g, channel, pixel);
            && 0 <= sample < SampleCount(g)
            && ChannelOf(storage, g, sample) == channel && PixelOf(storage, g, sample) == pixel
  {
    GeometryFacts(g);
    if storage == Planar {
      Mul.Index(channel, pixel, g.channels, PixelCount(g));
      Mul.DivMod(channel, pixel, PixelCount(g));
    } else {
      Mul.Index(pixel, channel, PixelCount(g), g.channels);
      Mul.DivMod(pixel, channel, g.channels);
    }
  }

  lemma SampleOfCoordinates(storage: PixelStorage, g: Geometry, sample: int)
    requires ValidGeometry(g) && 0 <= sample < SampleCount(g)
    ensures var channel, pixel := ChannelOf(storage, g, sample), PixelOf(storage, g, sample);
            && 0 <= channel < g.channels && 0 <= pixel < PixelCount(g)
            && SampleAt(storage, g, channel, pixel) == sample
  {
    GeometryFacts(g);
    if storage == Planar {
      Mul.QuotientRange(sample, g.channels, PixelCount(g));
      Mul.Split(sample, PixelCount(g));
    } else {
      Mul.QuotientRange(sample, PixelCount(g), g.channels);
      Mul.Split(sample, g.channels);
    }
  }

  /** Changing the storage permutes the samples, and changing it back undoes that. */
  lemma RemapInverts(from: PixelStorage, to: PixelStorage, g: Geometry, sample: int)
    requires ValidGeometry(g) && 0 <= sample < SampleCount(g)
    ensures 0 <= Remap(from, to, g, sample) < SampleCount(g)
    ensures Remap(to, from, g, Remap(from, to, g, sample)) == sample
    ensures from == to ==> Remap(from, to, g, sample) == sample
  {
    SampleOfCoordinates(from, g, sample);
    CoordinatesOf(to, g, ChannelOf(from, g, sample), PixelOf(from, g, sample));
  }

  // ---------------------------------------------------------------- byte order

  /** The byte that takes the place of byte `i` when every component is turned around. */
  function Mirror(i: int, component: int): int
    requires 0 < component
  {
    i / component * component + component - i % component - 1
  }

  lemma MirrorFacts(i: int, component: int)
    requires 0 < component && 0 <= i
    ensures Mirror(i, component) / component == i / component
    ensures Mirror(i, component) % component == component - 1 - i % component
    ensures 0 <= Mirror(i, component) && Mirror(Mirror(i, component), component) == i
  {
    Mul.Split(i, component);
    var q, r := i / component, i % component;
    Mul.DivMod(q, component - 1 - r, component);
    Mul.Monotone(0, q, component);
  }

  /** Mirroring inside a sample is mirroring in the whole buffer. */
  lemma MirrorShift(sample: int, parts: int, component: int, b: int)
    requires 0 < component && 0 < parts && 0 <= sample && 0 <= b < parts * component
    ensures 0 <= Mirror(b, component) < parts * component
    ensures Mirror(sample * (parts * component) + b, component) == sample * (parts * component) + Mirror(b, component)
  {
    var size := parts * component;
    Mul.QuotientRange(b, parts, component);
    Mul.Split(b, component);
    var q, r := b / component, b % component;
    MirrorFacts(b, component);
    Mul.Index(q, component - 1 - r, parts, component);
    assert sample * size + b == (sample * parts + q) * component + r by {
      Mul3(sample, parts, component);
    }
    Mul.DivMod(sample * parts + q, r, component);
    assert (sample * parts + q) * component == sample * size + q * component by {
      Mul3(sample, parts, component);
    }
  }

  /** The byte of a stored sample that becomes byte `b` of the delivered one. */
  function InputByte(b: int, component: int, swap: bool): int
    requires 0 < component
  {
    if swap then Mirror(b, component) else b
  }

  lemma InputByteInSample(b: int, format: SampleFormat, swap: bool)
    requires 0 <= b < SampleSize(format)
    ensures 0 <= InputByte(b, ComponentSize(format), swap) < SampleSize(format)
  {
    MirrorShift(0, ComponentParts(format), ComponentSize(format), b);
  }

  lemma Mul3(a: int, b: int, c: int)
    ensures a * (b * c) == a * b * c
    ensures forall q: int :: (a * b + q) * c == a * b * c + q * c
  {
  }

  function ComponentParts(format: SampleFormat): (n: int)
    ensures 0 < n && SampleSize(format) == n * ComponentSize(format) && 0 < ComponentSize(format)
  {
    if format == Complex32 || format == Complex64 then 2 else 1
  }

  // ---------------------------------------------------------------- delivery

  /** The byte of the stored block that ends up as byte `k` of the delivered image. */
  function StoredByte(g: Geometry, from: PixelStorage, to: PixelStorage, swap: bool, k: int): int
    requires ValidGeometry(g) && 0 <= k
  {
    var size := SampleSize(g.format);
    Remap(to, from, g, k / size) * size + InputByte(k % size, ComponentSize(g.format), swap)
  }

  lemma StoredByteInRange(g: Geometry, from: PixelStorage, to: PixelStorage, swap: bool, k: int)
    requires ValidGeometry(g) && 0 <= k < ByteCount(g)
    ensures 0 <= StoredByte(g, from, to, swap, k) < ByteCount(g)
  {
    var size := SampleSize(g.format);
    Mul.QuotientRange(k, SampleCount(g), size);
    RemapInverts(to, from, g, k / size);
    var parts := ComponentParts(g.format);
    MirrorShift(0, parts, ComponentSize(g.format), k % size);
    Mul.Index(Remap(to, from, g, k / size), StoredByte(g, from, to, swap, k) - Remap(to, from, g, k / size) * size,
              SampleCount(g), size);
  }

  /** The image as delivered in storage `to`, with every component turned around if `swap`. */
  function Delivered(g: Geometry, stored: Bytes, from: PixelStorage, to: PixelStorage, swap: bool): (image: Bytes)
    requires ValidGeometry(g) && |stored| == ByteCount(g)
    ensures |image| == |stored|
  {
    seq(|stored|, k requires 0 <= k < |stored| =>
      StoredByteInRange(g, from, to, swap, k);
      stored[StoredByte(g, from, to, swap, k)])
  }

  lemma DeliveredAt(g: Geometry, stored: Bytes, from: PixelStorage, to: PixelStorage, swap: bool, k: int)
    requires ValidGeometry(g) && |stored| == ByteCount(g) && 0 <= k < |stored|
    ensures 0 <= StoredByte(g, from, to, swap, k) < |stored|
    ensures Delivered(g, stored, from, to, swap)[k] == stored[StoredByte(g, from, to, swap, k)]
  {
    StoredByteInRange(g, from, to, swap, k);
  }

  /** Delivering there and back again restores every byte, whichever storage and order lie between. */
  lemma DeliveryInverts(g: Geometry, stored: Bytes, from: PixelStorage, to: PixelStorage, swap: bool)
    requires ValidGeometry(g) && |stored| == ByteCount(g)
    ensures Delivered(g, Delivered(g, stored, from, to, swap), to, from, swap) == stored
  {
    hide Delivered;
    var there := Delivered(g, stored, from, to, swap);
    var back := Delivered(g, there, to, from, swap);
    forall k | 0 <= k < |stored|
      ensures back[k] == stored[k]
    {
      DeliveredAt(g, there, to, from, swap, k);
      DeliveredAt(g, stored, from, to, swap, StoredByte(g, to, from, swap, k));
      StoredByteInverts(g, from, to, swap, k);
    }
  }

  lemma StoredByteInverts(g: Geometry, from: PixelStorage, to: PixelStorage, swap: bool, k: int)
    requires ValidGeometry(g) && 0 <= k < ByteCount(g)
    ensures 0 <= StoredByte(g, to, from, swap, k)
    ensures StoredByte(g, from, to, swap, StoredByte(g, to, from, swap, k)) == k
  {
    var size, component := SampleSize(g.format), ComponentSize(g.format);
    StoredByteInRange(g, to, from, swap, k);
    Mul.QuotientRange(k, SampleCount(g), size);
    Mul.Split(k, size);
    var sample, b := k / size, k % size;
    var b' := if swap then Mirror(b, component) else b;
    MirrorShift(0, ComponentParts(g.format), component, b);
    MirrorFacts(b, component);
    RemapInverts(from, to, g, sample);
    Mul.DivMod(Remap(from, to, g, sample), b', size);
  }

  /** Turning around every component of a buffer; trailing bytes that fill no component stay. */
  function Swapped(bytes: Bytes, component: int): (r: Bytes)
    requires 0 < component
    ensures |r| == |bytes|
  {
    seq(|bytes|, i requires 0 <= i < |bytes| =>
      if i < |bytes| / component * component then
        MirrorInBuffer(i, |bytes|, component);
        bytes[Mirror(i, component)]
      else bytes[i])
  }

  lemma MirrorInBuffer(i: int, size: int, component: int)
    requires 0 < component && 0 <= i < size / component * component
    ensures 0 <= Mirror(i, component) < size / component * component <= size
  {
    var count := size / component;
    Mul.Split(size, component);
    Mul.QuotientRange(i, count, component);
    MirrorFacts(i, component);
    Mul.Split(Mirror(i, component), component);
    Mul.Index(i / component, component - 1 - i % component, count, component);
  }

  lemma SwappedTwice(bytes: Bytes, component: int)
    requires 0 < component
    ensures Swapped(Swapped(bytes, component), component) == bytes
  {
    forall i | 0 <= i < |bytes|
      ensures Swapped(Swapped(bytes, component), component)[i] == bytes[i]
    {
      if i < |bytes| / component * component {
        MirrorInBuffer(i, |bytes|, component);
        MirrorFacts(i, component);
      }
    }
  }

  /** Without a change of storage, delivery is the copy or the in-place swap that the reader does instead. */
  lemma SameStorageDelivery(g: Geometry, stored: Bytes, storage: PixelStorage, swap: bool)
    requires ValidGeometry(g) && |stored| == ByteCount(g)
    ensures Delivered(g, stored, storage, storage, swap)
         == if swap then Swapped(stored, ComponentSize(g.format)) else stored
  {
    WholeComponents(g);
    hide Delivered, StoredByte, Mirror, ByteCount;
    var image, component := Delivered(g, stored, storage, storage, swap), ComponentSize(g.format);
    forall k | 0 <= k < |stored|
      ensures 0 <= Mirror(k, component) < |stored|
      ensures image[k] == if swap then stored[Mirror(k, component)] else stored[k]
    {
      DeliveredAt(g, stored, storage, storage, swap, k);
      SameStorageByte(g, storage, swap, k);
      MirrorInBuffer(k, |stored|, component);
    }
  }

  lemma WholeComponents(g: Geometry)
    requires ValidGeometry(g)
    ensures ByteCount(g) / ComponentSize(g.format) * ComponentSize(g.format) == ByteCount(g)
  {
    var component, parts := ComponentSize(g.format), ComponentParts(g.format);
    Mul3(SampleCount(g), parts, component);
    Mul.DivMod(SampleCount(g) * parts, 0, component);
  }

  lemma SameStorageByte(g: Geometry, storage: PixelStorage, swap: bool, k: int)
    requires ValidGeometry(g) && 0 <= k < ByteCount(g)
    ensures StoredByte(g, storage, storage, swap, k) == if swap then Mirror(k, ComponentSize(g.format)) else k
  {
    var size := SampleSize(g.format);
    Mul.QuotientRange(k, SampleCount(g), size);
    Mul.Split(k, size);
    RemapInverts(storage, storage, g, k / size);
    MirrorShift(k / size, ComponentParts(g.format), ComponentSize(g.format), k % size);
  }

  lemma SingleByteSwap(bytes: Bytes)
    ensures Swapped(bytes, 1) == bytes
  {
    forall i | 0 <= i < |bytes|
      ensures Mirror(i, 1) == i
    {
    }
  }
}
