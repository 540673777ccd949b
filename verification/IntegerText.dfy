/** Integer values as text: accepted by comparing lengths, first digits and strings, never by computing the number. */
module IntegerText {
  import opened Base
  import opened Text
  import Mul

  /** `find_first_not_of` of white space, from `i` on. */
  function FirstNonSpace(s: string, i: nat): (k: nat)
    requires i <= |s|
    ensures i <= k <= |s| && (forall j | i <= j < k :: IsSpace(s[j])) && (k < |s| ==> !IsSpace(s[k]))
    decreases |s| - i
  {
    if i < |s| && IsSpace(s[i]) then FirstNonSpace(s, i + 1) else i
  }

  /** One behind `find_last_not_of` of white space in the first `n` characters; 0 if there is none. */
  function AfterLastNonSpace(s: string, n: nat): (k: nat)
    requires n <= |s|
    ensures k <= n && (forall j | k <= j < n :: IsSpace(s[j])) && (k > 0 ==> !IsSpace(s[k - 1]))
  {
    if n > 0 && IsSpace(s[n - 1]) then AfterLastNonSpace(s, n - 1) else n
  }

  /** `trim_xml_whitespace`: white space goes from both ends, and nothing else. */
  function Trimmed(s: string): (t: string)
    ensures t != [] ==> !IsSpace(t[0]) && !IsSpace(t[|t| - 1])
    ensures var first, end := FirstNonSpace(s, 0), AfterLastNonSpace(s, |s|);
            if first == |s| then t == [] else first < end && t == s[first..end]
  {
    var first, end := FirstNonSpace(s, 0), AfterLastNonSpace(s, |s|);
    if first == |s| then [] else s[first..end]
  }

  // ---------------------------------------------------------------- the checks

  /** The order of `std::string_view`. */
  predicate NotAfter(a: string, b: string) {
    a == [] || (b != [] && (a[0] < b[0] || (a[0] == b[0] && NotAfter(a[1..], b[1..]))))
  }

  /** `decimal_magnitude_fits`. */
  predicate MagnitudeFits(digits: string, maximum: string) {
    |digits| < |maximum| || (|digits| == |maximum| && NotAfter(digits, maximum))
  }

  /** `maximum_decimal_magnitude`; long numbers are written in groups. */
  function MaximumMagnitude(width: int, signed: bool, negative: bool): string {
    if !signed then
      match width
      case 8 => "255"
      case 16 => "65535"
      case 32 => "4294967295"
      case 64 => "1844674407" + "3709551615"
      case 128 => "3402823669209" + "3846346337460" + "7431768211455"
      case _ => ""
    else
      match width
      case 8 => if negative then "128" else "127"
      case 16 => if negative then "32768" else "32767"
      case 32 => if negative then "2147483648" else "2147483647"
      case 64 => "9223372036" + if negative then "854775808" else "854775807"
      case 128 => "1701411834604" + "6923173168730" + if negative then "3715884105728" else "3715884105727"
      case _ => ""
  }

  function WithoutZeros(digits: string): (r: string)
    ensures r != [] ==> r[0] != '0'
    ensures |r| <= |digits|
  {
    if digits != [] && digits[0] == '0' then WithoutZeros(digits[1..]) else digits
  }

  /** `prefixed_integer_fits`. */
  predicate PrefixedFits(digits: string, base: int, width: nat) {
    var d := WithoutZeros(digits);
    if d == [] then true
    else if base == 2 then |d| <= width
    else if base == 16 then |d| <= width / 4
    else if base != 8 then false
    else
      var most, leading := (width + 2) / 3, width % 3;
      if |d| != most then |d| < most
      else leading == 0 || (d[0] as int - '0' as int) <= (if leading == 1 then 1 else 3)
  }

  function PrefixBase(t: string): int {
    if |t| < 2 || t[0] != '0' then 0
    else if t[1] == 'b' || t[1] == 'B' then 2
    else if t[1] == 'o' || t[1] == 'O' then 8
    else if t[1] == 'x' || t[1] == 'X' then 16
    else 0
  }

  /** What both copies of `is_valid_integer_value` decide. */
  predicate IsValidInteger(text: string, signed: bool, width: nat) {
    var t := Trimmed(text);
    if t == [] then false
    else if PrefixBase(t) != 0 then
      t[2..] != [] && AllDigits(t[2..], PrefixBase(t)) && PrefixedFits(t[2..], PrefixBase(t), width)
    else
      var negative := t[0] == '-';
      if negative && !signed then false
      else
        var digits := if t[0] == '+' || t[0] == '-' then t[1..] else t;
        if digits == [] || (|digits| > 1 && digits[0] == '0') || !AllDigits(digits, 10) then false
        else
          var maximum := MaximumMagnitude(width, signed, negative);
          maximum != [] && MagnitudeFits(digits, maximum)
  }

  // ---------------------------------------------------------------- the two validators

  predicate ReaderDigit(c: char, base: int) {
    if '0' <= c <= '9' then c as int - '0' as int < base
    else if base == 16 && 'a' <= c <= 'f' then true
    else base == 16 && 'A' <= c <= 'F'
  }

  predicate WriterDigit(c: char, base: int) {
    if '0' <= c <= '9' then c as int - '0' as int < base
    else base == 16 && (('a' <= c <= 'f') || ('A' <= c <= 'F'))
  }

  lemma SameDigits(s: string, base: int)
    requires base == 2 || base == 8 || base == 10 || base == 16
    ensures (forall i | 0 <= i < |s| :: ReaderDigit(s[i], base)) <==> AllDigits(s, base)
    ensures (forall i | 0 <= i < |s| :: WriterDigit(s[i], base)) <==> AllDigits(s, base)
  {
    assert forall i | 0 <= i < |s| :: ReaderDigit(s[i], base) <==> IsDigit(s[i], base);
    assert forall i | 0 <= i < |s| :: WriterDigit(s[i], base) <==> IsDigit(s[i], base);
  }

  /** `is_valid_integer_value` of the reader. */
  method ReaderAccepts(text: string, signed: bool, width: nat) returns (ok: bool)
    ensures ok <==> IsValidInteger(text, signed, width)
  {
    var t := Trimmed(text);
    hide Trimmed, AllDigits, PrefixedFits, MaximumMagnitude, MagnitudeFits, ReaderDigit;
    if t == [] {
      return false;
    }
    if |t| >= 2 && t[0] == '0' {
      var base := 0;
      if t[1] == 'b' || t[1] == 'B' {
        base := 2;
      } else if t[1] == 'o' || t[1] == 'O' {
        base := 8;
      } else if t[1] == 'x' || t[1] == 'X' {
        base := 16;
      }
      if base != 0 {
        t := t[2..];
        if t == [] {
          return false;
        }
        SameDigits(t, base);
        var digits := forall i | 0 <= i < |t| :: ReaderDigit(t[i], base);
        return digits && PrefixedFits(t, base, width);
      }
    }
    var negative := false;
    if t[0] == '+' || t[0] == '-' {
      negative := t[0] == '-';
      if !signed && negative {
        return false;
      }
      t := t[1..];
    }
    if t == [] || (|t| > 1 && t[0] == '0') {
      return false;
    }
    SameDigits(t, 10);
    if !forall i | 0 <= i < |t| :: ReaderDigit(t[i], 10) {
      return false;
    }
    var maximum := MaximumMagnitude(width, signed, negative);
    return maximum != [] && MagnitudeFits(t, maximum);
  }

  /** `is_valid_integer_value` of the writer, a second copy. */
  method WriterAccepts(text: string, signed: bool, width: nat) returns (ok: bool)
    ensures ok <==> IsValidInteger(text, signed, width)
  {
    var t := Trimmed(text);
    hide Trimmed, AllDigits, PrefixedFits, MaximumMagnitude, MagnitudeFits, WriterDigit;
    if t == [] {
      return false;
    }
    if |t| >= 2 && t[0] == '0' {
      var c := t[1];
      var base := if c == 'b' || c == 'B' then 2 else if c == 'o' || c == 'O' then 8 else if c == 'x' || c == 'X' then 16 else 0;
      if base != 0 {
        t := t[2..];
        SameDigits(t, base);
        var digits := t != [] && forall i | 0 <= i < |t| :: WriterDigit(t[i], base);
        return digits && PrefixedFits(t, base, width);
      }
    }
    var negative := false;
    if t[0] == '+' || t[0] == '-' {
      negative := t[0] == '-';
      if !signed && negative {
        return false;
      }
      t := t[1..];
    }
    SameDigits(t, 10);
    if t == [] || (|t| > 1 && t[0] == '0') || !forall i | 0 <= i < |t| :: WriterDigit(t[i], 10) {
      return false;
    }
    var maximum := MaximumMagnitude(width, signed, negative);
    return maximum != [] && MagnitudeFits(t, maximum);
  }

  // ---------------------------------------------------------------- the meaning

  /** A number as the value range of a type of this width sees it. */
  predicate InTypeRange(v: int, signed: bool, width: nat) {
    if signed then width > 0 && -Power(2, width - 1) <= v < Power(2, width - 1) else 0 <= v < Power(2, width)
  }

  /** "0x..." and the like: any bit pattern of the width, whether the type is signed or not. */
  predicate PrefixedMeaning(t: string, width: nat) {
    && PrefixBase(t) != 0
    && t[2..] != [] && AllDigits(t[2..], PrefixBase(t))
    && ValueOf(t[2..], PrefixBase(t)) < Power(2, width)
  }

  /** The digits behind the sign, without needless leading zeros. */
  predicate IsDecimal(digits: string) {
    digits != [] && AllDigits(digits, 10) && (|digits| > 1 ==> digits[0] != '0')
  }

  /** An optional sign, no minus in an unsigned type, and a value in the range of the type. */
  predicate DecimalMeaning(t: string, signed: bool, width: nat) {
    && t != []
    && (t[0] == '-' ==> signed)
    && var digits := if t[0] == '+' || t[0] == '-' then t[1..] else t;
       IsDecimal(digits) && InTypeRange(if t[0] == '-' then -ValueOf(digits, 10) else ValueOf(digits, 10), signed, width)
  }

  predicate IsWidth(width: int) {
    width == 8 || width == 16 || width == 32 || width == 64 || width == 128
  }

  // ---------------------------------------------------------------- digit strings

  lemma {:induction false} PowerAdd(base: int, m: nat, n: nat)
    requires 0 < base
    ensures Power(base, m + n) == Power(base, m) * Power(base, n)
  {
    if n > 0 {
      PowerAdd(base, m, n - 1);
      assert Power(base, m) * (Power(base, n - 1) * base) == Power(base, m) * Power(base, n - 1) * base;
    }
  }

  lemma {:induction false} PowerIsMonotone(base: int, m: nat, n: nat)
    requires 0 < base && m <= n
    ensures Power(base, m) <= Power(base, n)
  {
    if m < n {
      PowerIsMonotone(base, m, n - 1);
      Mul.Monotone(1, base, Power(base, n - 1));
    }
  }

  lemma {:induction false} ValueConcat(a: string, b: string, base: int)
    requires 0 < base && AllDigits(a, base) && AllDigits(b, base)
    ensures AllDigits(a + b, base)
    ensures ValueOf(a + b, base) == ValueOf(a, base) * Power(base, |b|) + ValueOf(b, base)
    decreases |b|
  {
    if b == [] {
      assert a + b == a;
    } else {
      var front := b[..|b| - 1];
      assert (a + b)[..|a + b| - 1] == a + front;
      ValueConcat(a, front, base);
      hide IsDigit;
      var v, p := ValueOf(a, base), Power(base, |front|);
      assert (v * p + ValueOf(front, base)) * base == v * (p * base) + ValueOf(front, base) * base by {
        Distribute(v, p, ValueOf(front, base), base);
      }
    }
  }

  lemma Distribute(v: int, p: int, f: int, base: int)
    ensures (v * p + f) * base == v * (p * base) + f * base
  {
  }

  lemma OneDigit(c: char, base: int)
    requires 0 < base && IsDigit(c, base)
    ensures AllDigits([c], base) && ValueOf([c], base) == DigitValue(c).value
  {
    assert [c][..0] == [] && ValueOf([], base) == 0;
  }

  /** The first digit and the rest. */
  lemma ValueFront(s: string, base: int)
    requires 0 < base && s != [] && AllDigits(s, base)
    ensures AllDigits(s[1..], base)
    ensures ValueOf(s, base) == DigitValue(s[0]).value * Power(base, |s| - 1) + ValueOf(s[1..], base)
  {
    OneDigit(s[0], base);
    ValueConcat([s[0]], s[1..], base);
    assert [s[0]] + s[1..] == s;
  }

  lemma Next(v: int, n: int, limit: int)
    requires 0 < n
    ensures (v + 1) * n == v * n + n
    ensures v < limit ==> v * n + n <= limit * n
  {
    if v < limit {
      Mul.Monotone(v + 1, limit, n);
    }
  }

  lemma {:induction false} ValueBound(s: string, base: int)
    requires 0 < base && AllDigits(s, base)
    ensures ValueOf(s, base) < Power(base, |s|)
  {
    if s != [] {
      var front := s[..|s| - 1];
      ValueBound(front, base);
      Next(ValueOf(front, base), base, Power(base, |front|));
    }
  }

  /** Between the multiples of the first digit's place. */
  lemma ValueRange(s: string, base: int)
    requires 0 < base && s != [] && AllDigits(s, base)
    ensures var d, p := DigitValue(s[0]).value, Power(base, |s| - 1);
            0 <= d && d * p <= ValueOf(s, base) < (d + 1) * p
  {
    ValueFront(s, base);
    ValueBound(s[1..], base);
    Next(DigitValue(s[0]).value, Power(base, |s| - 1), DigitValue(s[0]).value + 1);
    hide ValueOf, DigitValue, Power, IsDigit;
  }

  lemma {:induction false} ZerosDoNotCount(s: string, base: int)
    requires 1 < base && AllDigits(s, base)
    ensures AllDigits(WithoutZeros(s), base) && ValueOf(WithoutZeros(s), base) == ValueOf(s, base)
  {
    if s != [] && s[0] == '0' {
      ValueFront(s, base);
      ZerosDoNotCount(s[1..], base);
      assert 0 * Power(base, |s| - 1) == 0;
    }
  }

  /** Without leading zeros the length alone says which power of the base the number reaches. */
  lemma LengthDecides(s: string, base: int, n: nat)
    requires 1 < base && s != [] && s[0] != '0' && AllDigits(s, base)
    ensures |s| <= n <==> ValueOf(s, base) < Power(base, n)
  {
    ValueRange(s, base);
    ValueBound(s, base);
    var d, p := DigitValue(s[0]).value, Power(base, |s| - 1);
    assert 1 <= d;
    Mul.Monotone(1, d, p);
    if |s| <= n {
      PowerIsMonotone(base, |s|, n);
    } else {
      PowerIsMonotone(base, n, |s| - 1);
    }
  }

  // ---------------------------------------------------------------- decimal comparison

  /** For digit strings of one length, the order of strings is the order of numbers. */
  lemma {:induction false} OrderIsValueOrder(a: string, b: string)
    requires |a| == |b| && AllDigits(a, 10) && AllDigits(b, 10)
    ensures NotAfter(a, b) <==> ValueOf(a, 10) <= ValueOf(b, 10)
  {
    if a != [] {
      ValueFront(a, 10);
      ValueFront(b, 10);
      ValueBound(a[1..], 10);
      ValueBound(b[1..], 10);
      OrderIsValueOrder(a[1..], b[1..]);
      DigitOrder(a[0], b[0]);
      var x, y, p := DigitValue(a[0]).value, DigitValue(b[0]).value, Power(10, |a| - 1);
      hide ValueOf, Power, DigitValue, IsDigit;
      Next(x, p, y);
      Next(y, p, x);
    }
  }

  lemma DigitOrder(c: char, d: char)
    requires IsDigit(c, 10) && IsDigit(d, 10)
    ensures c < d <==> DigitValue(c).value < DigitValue(d).value
    ensures c == d <==> DigitValue(c).value == DigitValue(d).value
  {
  }

  /** Comparing lengths first and strings then compares the numbers. */
  lemma MagnitudeDecides(digits: string, maximum: string)
    requires IsDecimal(digits) && IsDecimal(maximum) && ValueOf(maximum, 10) > 0
    ensures MagnitudeFits(digits, maximum) <==> ValueOf(digits, 10) <= ValueOf(maximum, 10)
  {
    if |digits| == |maximum| {
      OrderIsValueOrder(digits, maximum);
    } else {
      LeadingDigit(maximum);
      LengthDecides(maximum, 10, |maximum| - 1);
      ValueBound(maximum, 10);
      ValueBound(digits, 10);
      hide ValueOf, NotAfter;
      if |digits| < |maximum| {
        PowerIsMonotone(10, |digits|, |maximum| - 1);
      } else {
        LengthDecides(digits, 10, |maximum|);
      }
    }
  }

  lemma LeadingDigit(s: string)
    requires IsDecimal(s) && ValueOf(s, 10) > 0
    ensures s[0] != '0'
  {
    if |s| == 1 {
      OneDigit(s[0], 10);
      assert s == [s[0]];
    }
  }

  // ---------------------------------------------------------------- prefixed literals

  lemma {:induction false} PowerOfPower(base: int, k: nat, n: nat)
    requires 0 < base
    ensures Power(Power(base, k), n) == Power(base, k * n)
  {
    if n > 0 {
      PowerOfPower(base, k, n - 1);
      PowerAdd(base, k * (n - 1), k);
      assert k * (n - 1) + k == k * n;
    }
  }

  /** Lengths, and for octal digits the first digit, compare the number with the power of two. */
  lemma PrefixedDecides(digits: string, base: int, width: nat)
    requires IsWidth(width) && (base == 2 || base == 8 || base == 16) && AllDigits(digits, base)
    ensures PrefixedFits(digits, base, width) <==> ValueOf(digits, base) < Power(2, width)
  {
    var d := WithoutZeros(digits);
    ZerosDoNotCount(digits, base);
    hide ValueOf, Power, IsDigit, WithoutZeros;
    if d == [] {
      assert ValueOf(d, base) == 0 by {
        EmptyIsZero(base);
      }
    } else if base == 2 {
      LengthDecides(d, 2, width);
    } else if base == 16 {
      LengthDecides(d, 16, width / 4);
      HexPower(width);
    } else {
      OctalDecides(d, width);
    }
  }

  lemma EmptyIsZero(base: int)
    requires 0 < base
    ensures ValueOf([], base) == 0
  {
  }

  lemma PowersOfTwo()
    ensures Power(2, 1) == 2 && Power(2, 2) == 4 && Power(2, 3) == 8 && Power(2, 4) == 16 && Power(2, 8) == 256
  {
    assert Power(2, 3) == 8;
    assert Power(2, 6) == 64;
  }

  lemma OctalDecides(d: string, width: nat)
    requires IsWidth(width) && d != [] && d[0] != '0' && AllDigits(d, 8)
    ensures PrefixedFits(d, 8, width) <==> ValueOf(d, 8) < Power(2, width)
  {
    hide ValueOf, Power, IsDigit, DigitValue;
    var most := (width + 2) / 3;
    var limit := if width % 3 == 1 then 2 else 4;
    OctalPower(width);
    assert WithoutZeros(d) == d;
    LengthDecides(d, 8, most);
    LengthDecides(d, 8, most - 1);
    PowerOfTwoBelow(most, limit);
    if |d| == most {
      ValueRange(d, 8);
      OctalDigit(d[0]);
      FirstDigitDecides(ValueOf(d, 8), DigitValue(d[0]).value, Power(8, most - 1), limit);
    }
  }

  lemma FirstDigitDecides(v: int, d: int, p: int, limit: int)
    requires 0 < p && d * p <= v < (d + 1) * p
    ensures v < p * limit <==> d < limit
  {
    if d < limit {
      Mul.Monotone(d + 1, limit, p);
    } else {
      Mul.Monotone(limit, d, p);
    }
  }

  lemma HexPower(width: nat)
    requires width % 4 == 0
    ensures Power(16, width / 4) == Power(2, width)
  {
    PowersOfTwo();
    PowerOfPower(2, 4, width / 4);
  }

  lemma OctalPower(width: nat)
    requires IsWidth(width)
    ensures 1 <= width % 3 <= 2
    ensures Power(2, width) == Power(8, (width + 2) / 3 - 1) * (if width % 3 == 1 then 2 else 4)
  {
    var most, leading := (width + 2) / 3, width % 3;
    assert width == 3 * (most - 1) + leading;
    PowersOfTwo();
    hide Power;
    PowerOfPower(2, 3, most - 1);
    PowerAdd(2, 3 * (most - 1), leading);
  }

  lemma OctalDigit(c: char)
    requires IsDigit(c, 8)
    ensures DigitValue(c).Some? && DigitValue(c).value == c as int - '0' as int
  {
  }

  lemma PowerOfTwoBelow(most: nat, limit: int)
    requires 1 <= most && 1 <= limit <= 8
    ensures Power(8, most - 1) <= Power(8, most - 1) * limit <= Power(8, most)
  {
    PowerAdd(8, most - 1, 1);
    OneFactor();
    hide Power;
    Mul.Monotone(1, limit, Power(8, most - 1));
    Mul.Monotone(limit, 8, Power(8, most - 1));
  }

  lemma OneFactor()
    ensures Power(8, 1) == 8
  {
  }

  // ---------------------------------------------------------------- the limits

  function DecimalDigit(c: char): int {
    if '0' <= c <= '9' then c as int - '0' as int else 0
  }

  /** The value of the first n digits, three at a time. */
  function Front(s: string, n: nat): int
    requires n <= |s|
  {
    if n == 0 then 0
    else if n == 1 then DecimalDigit(s[0])
    else if n == 2 then DecimalDigit(s[0]) * 10 + DecimalDigit(s[1])
    else Front(s, n - 3) * 1000 + DecimalDigit(s[n - 3]) * 100 + DecimalDigit(s[n - 2]) * 10 + DecimalDigit(s[n - 1])
  }

  lemma ValueByDigit(s: string, n: nat)
    requires AllDigits(s, 10) && 0 < n <= |s|
    ensures AllDigits(s[..n], 10) && AllDigits(s[..n - 1], 10)
    ensures ValueOf(s[..n], 10) == ValueOf(s[..n - 1], 10) * 10 + DecimalDigit(s[n - 1])
  {
    assert s[..n][..n - 1] == s[..n - 1];
  }

  lemma {:induction false} FrontIsValue(s: string, n: nat)
    requires AllDigits(s, 10) && n <= |s|
    ensures AllDigits(s[..n], 10) && Front(s, n) == ValueOf(s[..n], 10)
  {
    if n == 0 {
      assert ValueOf(s[..0], 10) == 0;
    } else {
      ValueByDigit(s, n);
      if n > 1 {
        ValueByDigit(s, n - 1);
      }
      if n > 2 {
        ValueByDigit(s, n - 2);
        FrontIsValue(s, n - 3);
      } else {
        assert ValueOf(s[..0], 10) == 0;
      }
    }
  }

  lemma Literal(s: string, v: int)
    requires AllDigits(s, 10) && Front(s, |s|) == v
    ensures ValueOf(s, 10) == v
  {
    FrontIsValue(s, |s|);
    assert s[..|s|] == s;
  }

  lemma Unsigned128A()
    ensures AllDigits("3402823669209", 10) && ValueOf("3402823669209", 10) == 3402823669209
  {
    Literal("3402823669209", 3402823669209);
  }

  lemma Unsigned128B()
    ensures AllDigits("3846346337460", 10) && ValueOf("3846346337460", 10) == 3846346337460
  {
    Literal("3846346337460", 3846346337460);
  }

  lemma Unsigned128C()
    ensures AllDigits("7431768211455", 10) && ValueOf("7431768211455", 10) == 7431768211455
  {
    Literal("7431768211455", 7431768211455);
  }

  lemma Signed128A()
    ensures AllDigits("1701411834604", 10) && ValueOf("1701411834604", 10) == 1701411834604
  {
    Literal("1701411834604", 1701411834604);
  }

  lemma Signed128B()
    ensures AllDigits("6923173168730", 10) && ValueOf("6923173168730", 10) == 6923173168730
  {
    Literal("6923173168730", 6923173168730);
  }

  lemma Signed128C()
    ensures AllDigits("3715884105727", 10) && ValueOf("3715884105727", 10) == 3715884105727
  {
    Literal("3715884105727", 3715884105727);
  }

  lemma Signed128D()
    ensures AllDigits("3715884105728", 10) && ValueOf("3715884105728", 10) == 3715884105728
  {
    Literal("3715884105728", 3715884105728);
  }

  lemma Unsigned64()
    ensures AllDigits("1844674407", 10) && ValueOf("1844674407", 10) == 1844674407
    ensures AllDigits("3709551615", 10) && ValueOf("3709551615", 10) == 3709551615
  {
    Literal("1844674407", 1844674407);
    Literal("3709551615", 3709551615);
  }

  lemma Signed64()
    ensures AllDigits("9223372036", 10) && ValueOf("9223372036", 10) == 9223372036
    ensures AllDigits("854775807", 10) && ValueOf("854775807", 10) == 854775807
    ensures AllDigits("854775808", 10) && ValueOf("854775808", 10) == 854775808
  {
    Literal("9223372036", 9223372036);
    assert Front("854775807", 3) == 854;
    Literal("854775807", 854775807);
    assert Front("854775808", 3) == 854;
    Literal("854775808", 854775808);
  }

  lemma Limits32()
    ensures AllDigits("4294967295", 10) && ValueOf("4294967295", 10) == 4294967295
    ensures AllDigits("2147483647", 10) && ValueOf("2147483647", 10) == 2147483647
    ensures AllDigits("2147483648", 10) && ValueOf("2147483648", 10) == 2147483648
  {
    Literal("4294967295", 4294967295);
    Literal("2147483647", 2147483647);
    Literal("2147483648", 2147483648);
  }

  lemma SmallLimits()
    ensures AllDigits("65535", 10) && ValueOf("65535", 10) == 65535
    ensures AllDigits("32767", 10) && ValueOf("32767", 10) == 32767
    ensures AllDigits("32768", 10) && ValueOf("32768", 10) == 32768
    ensures AllDigits("255", 10) && ValueOf("255", 10) == 255
    ensures AllDigits("127", 10) && ValueOf("127", 10) == 127
    ensures AllDigits("128", 10) && ValueOf("128", 10) == 128
  {
    assert AllDigits("65535", 10) && ValueOf("65535", 10) == 65535 by {
      Literal("65535", 65535);
    }
    assert AllDigits("32767", 10) && ValueOf("32767", 10) == 32767 by {
      Literal("32767", 32767);
    }
    assert AllDigits("32768", 10) && ValueOf("32768", 10) == 32768 by {
      Literal("32768", 32768);
    }
    assert AllDigits("255", 10) && ValueOf("255", 10) == 255 by {
      Literal("255", 255);
    }
    assert AllDigits("127", 10) && ValueOf("127", 10) == 127 by {
      Literal("127", 127);
    }
    assert AllDigits("128", 10) && ValueOf("128", 10) == 128 by {
      Literal("128", 128);
    }
  }

  lemma TenPowers()
    ensures Power(10, 9) == 1000000000 && Power(10, 10) == 10000000000 && Power(10, 13) == 10000000000000
  {
    assert Power(10, 5) == 100000;
    assert Power(10, 9) == Power(10, 5) * 10000;
    assert Power(10, 13) == Power(10, 9) * 10000;
  }

  lemma TwoPowers()
    ensures Power(2, 7) == 128 && Power(2, 8) == 256
    ensures Power(2, 15) == 32768 && Power(2, 16) == 65536
    ensures Power(2, 31) == 0x8000_0000 && Power(2, 32) == 0x1_0000_0000
    ensures Power(2, 63) == 0x8000_0000_0000_0000 && Power(2, 64) == 0x1_0000_0000_0000_0000
    ensures Power(2, 127) == 0x8000_0000_0000_0000_0000_0000_0000_0000
    ensures Power(2, 128) == 0x1_0000_0000_0000_0000_0000_0000_0000_0000
  {
    SmallTwoPowers();
    hide Power;
    PowerAdd(2, 8, 7);
    PowerAdd(2, 8, 8);
    PowerAdd(2, 16, 15);
    PowerAdd(2, 16, 16);
    PowerAdd(2, 32, 31);
    PowerAdd(2, 32, 32);
    PowerAdd(2, 64, 63);
    PowerAdd(2, 64, 64);
  }

  lemma SmallTwoPowers()
    ensures Power(2, 7) == 128 && Power(2, 8) == 256
  {
    assert Power(2, 4) == 16;
  }

  lemma LongLimits64(signed: bool, negative: bool)
    ensures var m := MaximumMagnitude(64, signed, negative);
            && AllDigits(m, 10)
            && ValueOf(m, 10) == if !signed then 18446744073709551615 else if negative then 9223372036854775808 else 9223372036854775807
  {
    TenPowers();
    Unsigned64();
    Signed64();
    hide ValueOf, Power, IsDigit;
    ValueConcat("1844674407", "3709551615", 10);
    ValueConcat("9223372036", "854775807", 10);
    ValueConcat("9223372036", "854775808", 10);
  }

  lemma LongLimits128(signed: bool, negative: bool)
    ensures var m := MaximumMagnitude(128, signed, negative);
            && AllDigits(m, 10)
            && ValueOf(m, 10) ==
               if !signed then 340282366920938463463374607431768211455
               else if negative then 170141183460469231731687303715884105728
               else 170141183460469231731687303715884105727
  {
    TenPowers();
    hide ValueOf, Power, IsDigit;
    if !signed {
      Unsigned128A();
      Unsigned128B();
      Unsigned128C();
      ValueConcat("3402823669209", "3846346337460", 10);
      ValueConcat("3402823669209" + "3846346337460", "7431768211455", 10);
    } else {
      Signed128A();
      Signed128B();
      Signed128C();
      Signed128D();
      ValueConcat("1701411834604", "6923173168730", 10);
      ValueConcat("1701411834604" + "6923173168730", if negative then "3715884105728" else "3715884105727", 10);
    }
  }

  /** The strings in the table are the limits of the types. */
  lemma MaximumIsLimit(width: int, signed: bool, negative: bool)
    requires IsWidth(width)
    ensures var m := MaximumMagnitude(width, signed, negative);
            && IsDecimal(m)
            && ValueOf(m, 10) ==
               if !signed then Power(2, width) - 1 else if negative then Power(2, width - 1) else Power(2, width - 1) - 1
  {
    TwoPowers();
    SmallLimits();
    Limits32();
    LongLimits64(signed, negative);
    LongLimits128(signed, negative);
    hide ValueOf, Power, IsDigit;
  }

  // ---------------------------------------------------------------- the main result

  lemma DecimalDecides(digits: string, signed: bool, negative: bool, width: nat)
    requires IsWidth(width) && IsDecimal(digits) && (negative ==> signed)
    ensures MaximumMagnitude(width, signed, negative) != []
    ensures MagnitudeFits(digits, MaximumMagnitude(width, signed, negative))
       <==> InTypeRange(if negative then -ValueOf(digits, 10) else ValueOf(digits, 10), signed, width)
  {
    MaximumIsLimit(width, signed, negative);
    TwoPowers();
    hide ValueOf, Power, IsDigit, MaximumMagnitude, NotAfter;
    MagnitudeDecides(digits, MaximumMagnitude(width, signed, negative));
  }

  /**
   For text of any length: accepted is exactly what spells, white space around it aside, a decimal number
   in the range of the type, or a prefixed number below two to the width.
   */
  lemma ValidityIsExact(text: string, signed: bool, width: nat)
    requires IsWidth(width)
    ensures IsValidInteger(text, signed, width)
       <==> PrefixedMeaning(Trimmed(text), width) || (PrefixBase(Trimmed(text)) == 0 && DecimalMeaning(Trimmed(text), signed, width))
  {
    var t := Trimmed(text);
    hide Trimmed, ValueOf, Power, IsDigit, MaximumMagnitude, MagnitudeFits, InTypeRange, PrefixedFits;
    if t != [] {
      if PrefixBase(t) != 0 {
        if AllDigits(t[2..], PrefixBase(t)) {
          PrefixedDecides(t[2..], PrefixBase(t), width);
        }
      } else {
        var negative := t[0] == '-';
        var digits := if t[0] == '+' || t[0] == '-' then t[1..] else t;
        if IsDecimal(digits) && (negative ==> signed) {
          DecimalDecides(digits, signed, negative, width);
        }
      }
    }
  }
}
