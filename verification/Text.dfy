/** Numbers as text, and text cut at separators: the vocabulary of XISF attribute values. */
module Text {
  import opened Base

  /** White space of XML. */
  predicate IsSpace(c: char) {
    c == ' ' || c == '\t' || c == '\r' || c == '\n'
  }

  /** Value of a digit character in bases up to sixteen, whatever its case. */
  function DigitValue(c: char): Option<int> {
    if '0' <= c <= '9' then Some(c as int - '0' as int)
    else if 'a' <= c <= 'f' then Some(c as int - 'a' as int + 10)
    else if 'A' <= c <= 'F' then Some(c as int - 'A' as int + 10)
    else None
  }

  predicate IsDigit(c: char, base: int) {
    DigitValue(c).Some? && DigitValue(c).value < base
  }

  predicate AllDigits(s: string, base: int) {
    forall i | 0 <= i < |s| :: IsDigit(s[i], base)
  }

  /** The number a digit string of any length stands for. */
  function ValueOf(s: string, base: int): (v: int)
    requires 0 < base && AllDigits(s, base)
    ensures 0 <= v
  {
    if s == [] then 0 else ValueOf(s[..|s| - 1], base) * base + DigitValue(s[|s| - 1]).value
  }

  function Digit(d: int): (c: char)
    requires 0 <= d < 10
    ensures IsDigit(c, 10) && DigitValue(c).value == d
  {
    ('0' as int + d) as char
  }

  /** `std::to_string` of an unsigned number. */
  function ToDecimal(n: int): (s: string)
    requires 0 <= n
    ensures |s| > 0 && AllDigits(s, 10) && ValueOf(s, 10) == n
  {
    if n < 10 then
      assert [Digit(n)][..0] == [];
      [Digit(n)]
    else
      var front := ToDecimal(n / 10);
      assert (front + [Digit(n % 10)])[..|front|] == front;
      front + [Digit(n % 10)]
  }

  /** `std::from_chars` on the whole text: digits only, no sign, no value beyond 64 bits. */
  function ParseUnsigned(s: string): Option<U64> {
    if s != [] && AllDigits(s, 10) && ValueOf(s, 10) <= MAX_U64 then Some(ValueOf(s, 10)) else None
  }

  lemma {:induction false} DigitCountIsMonotone(a: int, b: int)
    requires 0 <= a <= b
    ensures |ToDecimal(a)| <= |ToDecimal(b)|
    decreases b
  {
    if a >= 10 {
      DigitCountIsMonotone(a / 10, b / 10);
    }
  }

  function Power(base: int, k: nat): (p: int)
    requires 0 < base
    ensures 0 < p
  {
    if k == 0 then 1 else Power(base, k - 1) * base
  }

  lemma {:induction false} DigitCountBound(n: int, k: nat)
    requires 0 <= n < Power(10, k) && 0 < k
    ensures |ToDecimal(n)| <= k
    decreases k
  {
    if n >= 10 {
      assert Power(10, 1) == 10;
      DigitCountBound(n / 10, k - 1);
    }
  }

  /** A 64-bit number of at least 16 prints as two to twenty digits. */
  lemma DigitCountRange(n: U64)
    requires 16 <= n
    ensures 2 <= |ToDecimal(n)| <= 20
  {
    DigitCountIsMonotone(16, n);
    assert Power(10, 5) == 100000;
    assert Power(10, 10) == Power(10, 5) * 100000;
    assert Power(10, 15) == Power(10, 10) * 100000;
    assert Power(10, 20) == Power(10, 15) * 100000;
    DigitCountBound(n, 20);
  }

  /** Position of the first `c` at or after `start`, or the length of the text. */
  function Find(s: string, c: char, start: int): (i: int)
    requires 0 <= start <= |s|
    ensures start <= i <= |s|
    ensures forall k | start <= k < i :: s[k] != c
    ensures i < |s| ==> s[i] == c
    decreases |s| - start
  {
    if start == |s| || s[start] == c then start else Find(s, c, start + 1)
  }

  predicate Free(s: string, c: char) {
    forall k | 0 <= k < |s| :: s[k] != c
  }

  /** The parts of a text between separators, left to right. */
  datatype Parts = Last(text: string) | Part(text: string, rest: Parts)

  function Split(s: string, c: char, start: int): (parts: Parts)
    requires 0 <= start <= |s|
    decreases |s| - start
  {
    var end := Find(s, c, start);
    if end == |s| then Last(s[start..end]) else Part(s[start..end], Split(s, c, end + 1))
  }

  function Join(parts: Parts, c: char): string {
    if parts.Last? then parts.text else parts.text + ([c] + Join(parts.rest, c))
  }

  predicate PartsFree(parts: Parts, c: char) {
    Free(parts.text, c) && (parts.Part? ==> PartsFree(parts.rest, c))
  }

  lemma FindIsFirst(front: string, part: string, rest: string, c: char)
    requires Free(part, c) && (rest == "" || rest[0] == c)
    ensures Find(front + part + rest, c, |front|) == |front| + |part|
    ensures (front + part + rest)[|front|..|front| + |part|] == part
  {
    var text, end := front + part + rest, |front| + |part|;
    assert text[|front|..end] == part;
    forall k | |front| <= k < end
      ensures text[k] != c
    {
      assert text[k] == text[|front|..end][k - |front|];
    }
    if rest != "" {
      assert text[end] == rest[0];
    }
    FindUnique(text, c, |front|, end);
  }

  lemma FindUnique(s: string, c: char, start: int, end: int)
    requires 0 <= start <= end <= |s|
    requires forall k | start <= k < end :: s[k] != c
    requires end == |s| || s[end] == c
    ensures Find(s, c, start) == end
  {
    hide Find;
  }

  lemma Assoc(a: string, b: string, c: string)
    ensures a + (b + c) == a + b + c
  {
  }

  /** Splitting undoes joining, whatever text stands before the joined parts. */
  lemma {:induction false} SplitOfJoin(front: string, parts: Parts, c: char)
    requires PartsFree(parts, c)
    ensures Split(front + Join(parts, c), c, |front|) == parts
    decreases parts
  {
    hide Free, Find;
    var part := parts.text;
    if parts.Last? {
      assert front + part + "" == front + part;
      FindIsFirst(front, part, "", c);
    } else {
      var tail := Join(parts.rest, c);
      Assoc(front, part, [c] + tail);
      FindIsFirst(front, part, [c] + tail, c);
      Assoc(front + part, [c], tail);
      SplitOfJoin(front + part + [c], parts.rest, c);
    }
  }

  lemma DecimalIsFree(n: int, c: char)
    requires 0 <= n && !IsDigit(c, 10)
    ensures Free(ToDecimal(n), c)
  {
    var s := ToDecimal(n);
    forall k | 0 <= k < |s|
      ensures s[k] != c
    {
      assert IsDigit(s[k], 10);
    }
  }
}
