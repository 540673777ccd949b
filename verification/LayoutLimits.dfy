/**
 The layout loop can give up although a consistent layout exists: every pass that moves the blocks by
 one alignment makes some offsets a digit longer, and these digits push the blocks on once more.
 */
module LayoutLimits {
  import opened Base
  import opened Text
  import opened Locations
  import opened Layout

  /** The texts of a header that do not depend on the offsets. */
  datatype Texts = Texts(prologue: string, attributes: string, mandatory: string)

  predicate Sized(t: Texts) {
    |t.prologue| == 97 && |t.attributes| == 97 && |t.mandatory| == 155
  }

  /** A unit of `n` images that are all printed alike, and nothing else. */
  function Crowd(t: Texts, n: nat): (unit: Unit)
    ensures BlockCount(unit) == |unit.imageAttributes| == n
  {
    Unit(t.prologue, seq(n, _ => t.attributes), t.mandatory, [])
  }

  function Ones(n: nat): (sizes: seq<U64>)
    ensures |sizes| == n
  {
    seq(n, _ => 1)
  }

  /** One-byte blocks stand one alignment apart. */
  lemma {:induction false} OnesAreSpaced(n: nat, a: U64)
    requires 0 < n && a % 16 == 0 && a + 16 * n <= MAX_U64
    ensures Place(Ones(n), a, 16).Ok?
    ensures forall i | 0 <= i < n :: Place(Ones(n), a, 16).value.offsets[i] == a + 16 * i
    decreases n
  {
    if n > 1 {
      assert Ones(n)[1..] == Ones(n - 1);
      assert AlignUp(a + 1, 16) == Ok(a + 16);
      OnesAreSpaced(n - 1, a + 16);
    }
  }

  /** The digits of the offsets from number `i` on. */
  function Digits(a: U64, i: nat, n: nat): (digits: nat)
    requires i <= n
    decreases n - i
  {
    if i == n then 0 else |ToDecimal(a + 16 * i)| + Digits(a, i + 1, n)
  }

  lemma {:induction false} DigitCountIs(x: int, d: nat)
    requires 0 < d && 0 <= x < Power(10, d) && (d > 1 ==> Power(10, d - 1) <= x)
    ensures |ToDecimal(x)| == d
    decreases d
  {
    assert Power(10, 1) == 10;
    if d > 1 {
      DigitCountIs(x / 10, d - 1);
    }
  }

  lemma {:induction false} SameDigits(a: U64, i: nat, j: nat, n: nat, d: nat)
    requires i <= j <= n && forall k | i <= k < j :: |ToDecimal(a + 16 * k)| == d
    ensures Digits(a, i, n) == (j - i) * d + Digits(a, j, n)
    decreases j - i
  {
    hide ToDecimal;
    if i < j {
      SameDigits(a, i + 1, j, n, d);
      Product(j - i - 1, d);
    }
  }

  lemma Product(m: nat, d: nat)
    ensures (m + 1) * d == m * d + d
  {
  }

  /** A run of offsets with the same number of digits. */
  lemma DigitsOfRun(a: U64, i: nat, j: nat, n: nat, d: nat)
    requires i <= j <= n && 0 < d && (d > 1 ==> Power(10, d - 1) <= a + 16 * i)
    requires i < j ==> a + 16 * (j - 1) < Power(10, d)
    ensures Digits(a, i, n) == (j - i) * d + Digits(a, j, n)
  {
    hide ToDecimal, Power;
    forall k | i <= k < j ensures |ToDecimal(a + 16 * k)| == d {
      DigitCountIs(a + 16 * k, d);
    }
    SameDigits(a, i, j, n, d);
  }

  lemma CrowdImage(t: Texts, n: nat, offsets: seq<U64>, i: nat)
    requires Sized(t) && |offsets| == n && i < n
    ensures |ImageText(Crowd(t, n), Ones(n), offsets, i)| == 130 + |ToDecimal(offsets[i])|
  {
    assert |ToDecimal(1)| == 1;
    hide ToDecimal;
    assert !HasChildren(Crowd(t, n), Some(i));
    assert |LocationAttribute(offsets[i], 1)| == 25 + |ToDecimal(offsets[i])|;
  }

  lemma {:induction false} CrowdImages(t: Texts, n: nat, offsets: seq<U64>, a: U64, i: nat)
    requires Sized(t) && |offsets| == n && i <= n && forall k | 0 <= k < n :: offsets[k] == a + 16 * k
    ensures |Images(Crowd(t, n), Ones(n), offsets, i)| == (n - i) * 130 + Digits(a, i, n)
    decreases n - i
  {
    hide ToDecimal, ImageText, Crowd, Ones, BlockCount, Children;
    if i < n {
      CrowdImages(t, n, offsets, a, i + 1);
      CrowdImage(t, n, offsets, i);
    }
  }

  lemma CrowdHeader(t: Texts, n: nat, offsets: seq<U64>)
    requires Sized(t) && |offsets| == n
    ensures |HeaderText(Crowd(t, n), Ones(n), offsets)| == 270 + |Images(Crowd(t, n), Ones(n), offsets, 0)|
  {
    var unit := Crowd(t, n);
    hide Images;
    assert Children(unit, Ones(n), offsets, None, 0) == "";
  }

  /** What one pass asks for, from the number of digits that it prints. */
  lemma CrowdPass(t: Texts, n: nat, a: U64)
    requires Sized(t) && 0 < n <= 0x1_0000 && a % 16 == 0 && a <= 0x1_0000_0000 && Digits(a, 0, n) <= 0x1_0000_0000
    ensures NextOffset(Crowd(t, n), Ones(n), 16, a) == AlignUp(286 + n * 130 + Digits(a, 0, n), 16)
  {
    hide Place, ToDecimal, Images, AlignUp, Digits, HeaderText, Crowd, Ones, NextOffset, BlockCount;
    OnesAreSpaced(n, a);
    var p := Place(Ones(n), a, 16).value;
    CrowdImages(t, n, p.offsets, a, 0);
    CrowdHeader(t, n, p.offsets);
    NextOffsetUnfold(Crowd(t, n), Ones(n), 16, a, p.offsets, p.end);
  }

  /** The digits of all offsets, when those before number `i` have `d` digits and the others one more. */
  lemma DigitsOfTwoRuns(n: nat, a: U64, i: nat, d: nat)
    requires i <= n && 1 < d && Power(10, d - 1) <= a
    requires i > 0 ==> a + 16 * (i - 1) < Power(10, d)
    requires i < n ==> Power(10, d) <= a + 16 * i && a + 16 * (n - 1) < Power(10, d + 1)
    ensures Digits(a, 0, n) == i * d + (n - i) * (d + 1)
  {
    hide Power, ToDecimal;
    DigitsOfRun(a, 0, i, n, d);
    if i < n {
      DigitsOfRun(a, i, n, n, d + 1);
    }
  }

  /** The first four passes over 700 such images all move the blocks, the fifth would not. */
  lemma CrowdMoves(t: Texts)
    requires Sized(t)
    ensures NextOffset(Crowd(t, 700), Ones(700), 16, 16) == Ok(94096)
    ensures NextOffset(Crowd(t, 700), Ones(700), 16, 94096) == Ok(95120)
    ensures NextOffset(Crowd(t, 700), Ones(700), 16, 95120) == Ok(95184)
    ensures NextOffset(Crowd(t, 700), Ones(700), 16, 95184) == Ok(95200)
    ensures NextOffset(Crowd(t, 700), Ones(700), 16, 95200) == Ok(95200)
  {
    Powers();
    hide Digits, NextOffset, Crowd, Ones, Power;
    assert Digits(16, 0, 700) == 2808 by {
      DigitsOfRun(16, 0, 6, 700, 2);
      DigitsOfRun(16, 6, 62, 700, 3);
      DigitsOfRun(16, 62, 624, 700, 4);
      DigitsOfRun(16, 624, 700, 700, 5);
      NoDigits();
    }
    DigitsOfTwoRuns(700, 94096, 369, 5);
    DigitsOfTwoRuns(700, 95120, 305, 5);
    DigitsOfTwoRuns(700, 95184, 301, 5);
    DigitsOfTwoRuns(700, 95200, 300, 5);
    CrowdPass(t, 700, 16);
    CrowdPass(t, 700, 94096);
    CrowdPass(t, 700, 95120);
    CrowdPass(t, 700, 95184);
    CrowdPass(t, 700, 95200);
  }

  lemma NoDigits()
    ensures Digits(16, 700, 700) == 0
  {
  }

  lemma Powers()
    ensures Power(10, 1) == 10 && Power(10, 2) == 100 && Power(10, 3) == 1000
    ensures Power(10, 4) == 10000 && Power(10, 5) == 100000 && Power(10, 6) == 1000000
  {
  }

  lemma FourMoves(unit: Unit, sizes: seq<U64>, alignment: U64, a: U64, b: U64, c: U64, d: U64)
    requires sizes != [] && |sizes| == BlockCount(unit) && 0 < alignment
    requires NextOffset(unit, sizes, alignment, alignment) == Ok(a) && NextOffset(unit, sizes, alignment, a) == Ok(b)
    requires NextOffset(unit, sizes, alignment, b) == Ok(c) && NextOffset(unit, sizes, alignment, c) == Ok(d)
    requires alignment != a && a != b && b != c && c != d
    ensures Moving(unit, sizes, alignment, 4) && OffsetAfter(unit, sizes, alignment, 4) == Ok(d)
  {
    hide NextOffset, BlockCount;
    assert OffsetAfter(unit, sizes, alignment, 0) == Ok(alignment);
    assert OffsetAfter(unit, sizes, alignment, 1) == Ok(a);
    assert OffsetAfter(unit, sizes, alignment, 2) == Ok(b);
    assert OffsetAfter(unit, sizes, alignment, 3) == Ok(c);
  }

  /** What `make_header` prints for uncompressed one-byte Gray images by an application called "x". */
  function PrintedTexts(): (t: Texts)
    ensures Sized(t)
  {
    Texts(
      "<?xml version=\"1.0\" encoding=\"UTF-8\"?>" + "<xisf xmlns=\"http://www.pixinsight.com/xisf\" version=\"1.0\">",
      " geometry=\"1:1:1\"" + " sampleFormat=\"UInt8\" colorSpace=\"Gray\"" + " pixelStorage=\"Planar\" byteOrder=\"little\"",
      "<Metadata><Property id=\"XISF:CreationTime\" type=\"TimePoint\" " + "value=\"2024-01-01T00:00:00Z\"/>"
      + "<Property id=\"XISF:CreatorApplication\" type=\"String\">" + "x</Property>")
  }

  /** Of these images, 700 at alignment 16 have a consistent layout, and the writer refuses them. */
  lemma FourPassesAreNotEnough()
    ensures Unsettled(Crowd(PrintedTexts(), 700), Ones(700), 16)
    ensures IsFixed(Crowd(PrintedTexts(), 700), Ones(700), 16, 95200)
  {
    var t := PrintedTexts();
    hide NextOffset, Crowd, Ones, Place, OffsetAfter, Moving, PrintedTexts;
    CrowdMoves(t);
    OnesAreSpaced(700, 95200);
    FourMoves(Crowd(t, 700), Ones(700), 16, 94096, 95120, 95184, 95200);
  }
}
