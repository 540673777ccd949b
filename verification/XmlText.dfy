/** Which byte strings the writer lets into its header, and how it writes them there. */
module XmlText {
  import opened Base

  /** XML 1.0 (fifth edition), section 2.2. */
  predicate IsXmlChar(c: int) {
    || c == 0x9 || c == 0xA || c == 0xD
    || 0x20 <= c <= 0xD7FF
    || 0xE000 <= c <= 0xFFFD
    || 0x10000 <= c <= 0x10FFFF
  }

  /** RFC 3629, section 3. */
  function Utf8(c: int): (b: Bytes)
    requires IsXmlChar(c)
    ensures 1 <= |b| <= 4
  {
    if c < 0x80 then [c]
    else if c < 0x800 then [0xC0 + c / 64, 0x80 + c % 64]
    else if c < 0x10000 then [0xE0 + c / 64 / 64, 0x80 + c / 64 % 64, 0x80 + c % 64]
    else [0xF0 + c / 64 / 64 / 64, 0x80 + c / 64 / 64 % 64, 0x80 + c / 64 % 64, 0x80 + c % 64]
  }

  predicate AreXmlChars(s: seq<int>) {
    forall k | 0 <= k < |s| :: IsXmlChar(s[k])
  }

  function Encoded(s: seq<int>): Bytes
    requires AreXmlChars(s)
  {
    if s == [] then [] else Utf8(s[0]) + Encoded(s[1..])
  }

  /** The bytes encode some sequence of XML characters. */
  ghost predicate IsXmlText(b: Bytes) {
    exists s :: AreXmlChars(s) && Encoded(s) == b
  }

  // ---------------------------------------------------------------- one character

  /** The number of bytes that this first byte announces; 0 if it announces none. */
  function Announced(lead: Byte): int {
    if lead < 0x80 then 1
    else if 0xC2 <= lead <= 0xDF then 2
    else if 0xE0 <= lead <= 0xEF then 3
    else if 0xF0 <= lead <= 0xF4 then 4
    else 0
  }

  function LeadBits(lead: Byte): int {
    if lead < 0x80 then lead else if lead < 0xE0 then lead % 32 else if lead < 0xF0 then lead % 16 else lead % 8
  }

  predicate IsContinuation(b: Byte) {
    0x80 <= b < 0xC0
  }

  /** The code point accumulated over the first n bytes. */
  function Accumulated(b: Bytes, n: int): int
    requires 1 <= n <= |b|
    decreases n
  {
    if n == 1 then LeadBits(b[0]) else Accumulated(b, n - 1) * 64 + b[n - 1] % 64
  }

  predicate InRange(n: int, c: int) {
    && !(n == 3 && c < 0x800) && !(n == 4 && c < 0x10000) && c <= 0x10FFFF && !(0xD800 <= c <= 0xDFFF)
  }

  /** The first n bytes are well-formed and encode an XML character. */
  predicate StartsWithChar(b: Bytes, n: int) {
    && 1 <= n <= |b|
    && n == Announced(b[0])
    && (forall k | 1 <= k < n :: IsContinuation(b[k]))
    && InRange(n, Accumulated(b, n)) && IsXmlChar(Accumulated(b, n))
  }

  lemma SixBits(h: int, l: int)
    requires 0 <= l < 64
    ensures (h * 64 + l) / 64 == h && (h * 64 + l) % 64 == l
  {
  }

  lemma TwoBytes(x: Byte, y: Byte)
    requires Announced(x) == 2 && IsContinuation(y)
    ensures var c := LeadBits(x) * 64 + y % 64; 0x80 <= c < 0x800 && IsXmlChar(c) && Utf8(c) == [x, y]
  {
    SixBits(LeadBits(x), y % 64);
  }

  lemma ThreeBytes(x: Byte, y: Byte, z: Byte)
    requires Announced(x) == 3 && IsContinuation(y) && IsContinuation(z)
    ensures var c := (LeadBits(x) * 64 + y % 64) * 64 + z % 64;
            c < 0x10000 && (0x800 <= c && IsXmlChar(c) ==> Utf8(c) == [x, y, z])
  {
    SixBits(LeadBits(x), y % 64);
    SixBits(LeadBits(x) * 64 + y % 64, z % 64);
  }

  lemma FourBytes(w: Byte, x: Byte, y: Byte, z: Byte)
    requires Announced(w) == 4 && IsContinuation(x) && IsContinuation(y) && IsContinuation(z)
    ensures var c := ((LeadBits(w) * 64 + x % 64) * 64 + y % 64) * 64 + z % 64;
            0x10000 <= c && IsXmlChar(c) ==> Utf8(c) == [w, x, y, z]
  {
    var h := LeadBits(w);
    assert 0 <= h <= 4 && w == 0xF0 + h;
    var c2 := h * 64 + x % 64;
    var c1 := c2 * 64 + y % 64;
    SixBits(h, x % 64);
    SixBits(c2, y % 64);
    SixBits(c1, z % 64);
    hide LeadBits, Announced, IsXmlChar;
  }

  lemma AccumulatedBytes(b: Bytes)
    ensures |b| >= 1 ==> Accumulated(b, 1) == LeadBits(b[0])
    ensures |b| >= 2 ==> Accumulated(b, 2) == LeadBits(b[0]) * 64 + b[1] % 64
    ensures |b| >= 3 ==> Accumulated(b, 3) == (LeadBits(b[0]) * 64 + b[1] % 64) * 64 + b[2] % 64
    ensures |b| >= 4 ==> Accumulated(b, 4) == ((LeadBits(b[0]) * 64 + b[1] % 64) * 64 + b[2] % 64) * 64 + b[3] % 64
  {
    hide LeadBits;
  }

  /** What the scan accepts is the encoding of the character it has accumulated. */
  lemma CharSound(b: Bytes, n: int)
    requires StartsWithChar(b, n)
    ensures IsXmlChar(Accumulated(b, n)) && b[..n] == Utf8(Accumulated(b, n))
  {
    AccumulatedBytes(b);
    hide Accumulated, IsXmlChar;
    if n == 2 {
      TwoBytes(b[0], b[1]);
    } else if n == 3 {
      ThreeBytes(b[0], b[1], b[2]);
    } else if n == 4 {
      FourBytes(b[0], b[1], b[2], b[3]);
    }
  }

  /** And every encoding is accepted. */
  lemma CharComplete(b: Bytes, c: int)
    requires IsXmlChar(c) && Utf8(c) <= b
    ensures StartsWithChar(b, |Utf8(c)|) && Accumulated(b, |Utf8(c)|) == c
  {
    var u := Utf8(c);
    assert forall k | 0 <= k < |u| :: b[k] == u[k];
    AccumulatedBytes(b);
    LeadOf(c);
    hide Accumulated;
  }

  lemma TailByte(l: int)
    requires 0 <= l < 64
    ensures (0x80 + l) % 64 == l && IsContinuation(0x80 + l)
  {
  }

  lemma LeadByte(h: int)
    ensures 2 <= h < 32 ==> Announced(0xC0 + h) == 2 && LeadBits(0xC0 + h) == h
    ensures 0 <= h < 16 ==> Announced(0xE0 + h) == 3 && LeadBits(0xE0 + h) == h
    ensures 0 <= h <= 4 ==> Announced(0xF0 + h) == 4 && LeadBits(0xF0 + h) == h
  {
  }

  lemma LeadOf(c: int)
    requires IsXmlChar(c)
    ensures var u := Utf8(c);
            && Announced(u[0]) == |u|
            && (forall k | 1 <= k < |u| :: IsContinuation(u[k]))
            && InRange(|u|, c)
            && (|u| == 1 ==> LeadBits(u[0]) == c)
            && (|u| == 2 ==> LeadBits(u[0]) * 64 + u[1] % 64 == c)
            && (|u| == 3 ==> (LeadBits(u[0]) * 64 + u[1] % 64) * 64 + u[2] % 64 == c)
            && (|u| == 4 ==> ((LeadBits(u[0]) * 64 + u[1] % 64) * 64 + u[2] % 64) * 64 + u[3] % 64 == c)
  {
    var c1 := c / 64;
    var c2 := c1 / 64;
    assert c == c1 * 64 + c % 64 && c1 == c2 * 64 + c1 % 64;
    TailByte(c % 64);
    TailByte(c1 % 64);
    LeadByte(if c < 0x800 then c1 else c2);
    var u := Utf8(c);
    if c < 0x80 {
    } else if c < 0x800 {
      assert u == [0xC0 + c1, 0x80 + c % 64];
      hide Utf8, IsContinuation, LeadBits, Announced;
    } else if c < 0x10000 {
      assert u == [0xE0 + c2, 0x80 + c1 % 64, 0x80 + c % 64];
      hide Utf8, IsContinuation, LeadBits, Announced;
    } else {
      LeadOfFour(c);
      hide Utf8, IsContinuation, LeadBits, Announced;
    }
  }

  lemma LeadOfFour(c: int)
    requires IsXmlChar(c) && c >= 0x10000
    ensures var u := Utf8(c);
            && |u| == 4 && Announced(u[0]) == 4
            && IsContinuation(u[1]) && IsContinuation(u[2]) && IsContinuation(u[3])
            && ((LeadBits(u[0]) * 64 + u[1] % 64) * 64 + u[2] % 64) * 64 + u[3] % 64 == c
  {
    var c1 := c / 64;
    var c2 := c1 / 64;
    var c3 := c2 / 64;
    assert c == c1 * 64 + c % 64 && c1 == c2 * 64 + c1 % 64 && c2 == c3 * 64 + c2 % 64;
    TailByte(c % 64);
    TailByte(c1 % 64);
    TailByte(c2 % 64);
    LeadByte(c3);
    assert Utf8(c) == [0xF0 + c3, 0x80 + c2 % 64, 0x80 + c1 % 64, 0x80 + c % 64];
    hide Utf8, IsContinuation, LeadBits, Announced, IsXmlChar;
  }

  // ---------------------------------------------------------------- the whole text

  lemma EncodedFront(s: seq<int>)
    requires AreXmlChars(s) && s != []
    ensures Utf8(s[0]) <= Encoded(s) && Encoded(s)[|Utf8(s[0])|..] == Encoded(s[1..])
  {
    hide Utf8;
  }

  /** Behind one character the question is the same. */
  lemma TextBehindChar(b: Bytes, n: int)
    requires StartsWithChar(b, n)
    ensures IsXmlText(b) <==> IsXmlText(b[n..])
  {
    CharSound(b, n);
    var c := Accumulated(b, n);
    hide Utf8, IsXmlChar, Accumulated;
    if IsXmlText(b[n..]) {
      var s :| AreXmlChars(s) && Encoded(s) == b[n..];
      assert ([c] + s)[1..] == s && AreXmlChars([c] + s);
      assert Encoded([c] + s) == Utf8(c) + b[n..] == b;
    }
    if IsXmlText(b) {
      var s :| AreXmlChars(s) && Encoded(s) == b;
      EncodedFront(s);
      CharComplete(b, s[0]);
      assert AreXmlChars(s[1..]) && Encoded(s[1..]) == b[n..];
    }
  }

  lemma NoTextWithoutChar(b: Bytes)
    requires b != [] && !StartsWithChar(b, Announced(b[0]))
    ensures !IsXmlText(b)
  {
    hide Utf8, IsXmlChar, Accumulated;
    if IsXmlText(b) {
      var s :| AreXmlChars(s) && Encoded(s) == b;
      EncodedFront(s);
      CharComplete(b, s[0]);
    }
  }

  /** The characters that a text encodes are unique. */
  lemma {:induction false} EncodedIsInjective(s: seq<int>, t: seq<int>)
    requires AreXmlChars(s) && AreXmlChars(t) && Encoded(s) == Encoded(t)
    ensures s == t
  {
    hide Utf8, IsXmlChar, Accumulated;
    if s != [] && t != [] {
      EncodedFront(s);
      EncodedFront(t);
      CharComplete(Encoded(s), s[0]);
      CharComplete(Encoded(s), t[0]);
      EncodedIsInjective(s[1..], t[1..]);
      assert s == [s[0]] + s[1..] && t == [t[0]] + t[1..];
    }
  }

  /** `is_valid_xml_utf8`. */
  method IsValidXmlUtf8(text: Bytes) returns (ok: bool)
    ensures ok <==> IsXmlText(text)
  {
    hide Utf8, IsXmlText, StartsWithChar, IsXmlChar;
    var index := 0;
    assert text[0..] == text;
    while index < |text|
      invariant 0 <= index <= |text|
      invariant IsXmlText(text) <==> IsXmlText(text[index..])
      decreases |text| - index
    {
      var n := ScanChar(text, index);
      if n == 0 {
        NoTextWithoutChar(text[index..]);
        return false;
      }
      TextBehindChar(text[index..], n);
      CharLength(text[index..], n);
      assert text[index..][n..] == text[index + n..];
      index := index + n;
    }
    NoCharsAtEnd();
    assert text[index..] == [];
    return true;
  }

  lemma CharLength(b: Bytes, n: int)
    requires StartsWithChar(b, n)
    ensures 1 <= n <= |b|
  {
  }

  lemma NoCharsAtEnd()
    ensures IsXmlText([])
  {
    assert Encoded([]) == [];
  }

  /** One turn of the loop: the length of the character at `index`, or 0 if there is none. */
  method ScanChar(text: Bytes, index: nat) returns (n: int)
    requires index < |text|
    ensures if n == 0 then !StartsWithChar(text[index..], Announced(text[index])) else StartsWithChar(text[index..], n)
  {
    hide IsXmlChar, LeadBits;
    ghost var b := text[index..];
    var lead := text[index];
    var count := Announced(lead) - 1;
    var codePoint := LeadBits(lead);
    if count < 0 || count > |text| - index - 1 {
      return 0;
    }
    var k := 0;
    while k < count
      invariant 0 <= k <= count
      invariant forall j | 1 <= j < k + 1 :: IsContinuation(b[j])
      invariant codePoint == Accumulated(b, k + 1)
    {
      var byte := text[index + k + 1];
      if !IsContinuation(byte) {
        assert !IsContinuation(b[k + 1]);
        return 0;
      }
      codePoint := codePoint * 64 + byte % 64;
      k := k + 1;
    }
    if !InRange(count + 1, codePoint) || !IsXmlChar(codePoint) {
      return 0;
    }
    return count + 1;
  }

  // ---------------------------------------------------------------- escaping

  const AMP: Byte := 38
  const LT: Byte := 60
  const GT: Byte := 62
  const QUOTE: Byte := 34

  // "&amp;", "&lt;", "&gt;", "&quot;"
  const AMP_ENTITY: Bytes := [AMP, 97, 109, 112, 59]
  const LT_ENTITY: Bytes := [AMP, 108, 116, 59]
  const GT_ENTITY: Bytes := [AMP, 103, 116, 59]
  const QUOTE_ENTITY: Bytes := [AMP, 113, 117, 111, 116, 59]

  function EscapedByte(x: Byte, attribute: bool): (b: Bytes)
    ensures |b| >= 1
  {
    if x == AMP then AMP_ENTITY
    else if x == LT then LT_ENTITY
    else if x == GT then GT_ENTITY
    else if x == QUOTE && attribute then QUOTE_ENTITY
    else [x]
  }

  function Escaped(input: Bytes, attribute: bool): Bytes {
    if input == [] then [] else EscapedByte(input[0], attribute) + Escaped(input[1..], attribute)
  }

  /** `escape_xml`. */
  method EscapeXml(input: Bytes, attribute: bool) returns (r: Result<Bytes>)
    ensures r == Ok(Escaped(input, attribute)) <==> IsXmlText(input)
    ensures r.Err? <==> !IsXmlText(input)
    ensures r.Err? ==> r.error == InvalidArgument
  {
    hide IsXmlText, EscapedByte;
    var valid := IsValidXmlUtf8(input);
    if !valid {
      return Err(InvalidArgument);
    }
    var output: Bytes := [];
    var i := 0;
    while i < |input|
      invariant 0 <= i <= |input|
      invariant Escaped(input, attribute) == output + Escaped(input[i..], attribute)
    {
      assert input[i..][1..] == input[i + 1..];
      output := output + EscapedByte(input[i], attribute);
      i := i + 1;
    }
    assert input[i..] == [] && output + [] == output;
    return Ok(output);
  }

  /** The character that a predefined entity at the front of `b` stands for, and the length of the entity. */
  function EntityAt(b: Bytes): Option<(Byte, int)> {
    if AMP_ENTITY <= b then Some((AMP, 5))
    else if LT_ENTITY <= b then Some((LT, 4))
    else if GT_ENTITY <= b then Some((GT, 4))
    else if QUOTE_ENTITY <= b then Some((QUOTE, 6))
    else None
  }

  /** Replacing the predefined entities. */
  function Unescaped(b: Bytes): Bytes {
    if b == [] then []
    else if EntityAt(b).Some? then [EntityAt(b).value.0] + Unescaped(b[EntityAt(b).value.1..])
    else [b[0]] + Unescaped(b[1..])
  }

  lemma EscapedByteInverts(x: Byte, attribute: bool, rest: Bytes)
    ensures var b := EscapedByte(x, attribute) + rest;
            if EntityAt(b).Some? then EntityAt(b) == Some((x, |EscapedByte(x, attribute)|)) else EscapedByte(x, attribute) == [x]
  {
    var b := EscapedByte(x, attribute) + rest;
    assert b[0] == EscapedByte(x, attribute)[0];
    if x == AMP || x == LT || x == GT || (x == QUOTE && attribute) {
      assert b[1] == EscapedByte(x, attribute)[1];
      assert EscapedByte(x, attribute) <= b;
    }
  }

  /** Escaping is undone by replacing the predefined entities. */
  lemma {:induction false} UnescapeInverts(input: Bytes, attribute: bool)
    ensures Unescaped(Escaped(input, attribute)) == input
  {
    if input != [] {
      var piece, rest := EscapedByte(input[0], attribute), Escaped(input[1..], attribute);
      EscapedByteInverts(input[0], attribute, rest);
      UnescapeInverts(input[1..], attribute);
      hide EscapedByte, EntityAt;
      assert (piece + rest)[|piece|..] == rest;
    }
  }

  lemma PieceIsClean(x: Byte, attribute: bool, k: nat)
    requires k < |EscapedByte(x, attribute)|
    ensures var piece := EscapedByte(x, attribute);
            piece[k] != LT && piece[k] != GT && (attribute ==> piece[k] != QUOTE) && (piece[k] == AMP ==> k == 0)
  {
  }

  /** No markup is left: every '&' begins an entity, and there is no other delimiter. */
  lemma {:induction false} NoRawMarkup(input: Bytes, attribute: bool, k: nat)
    requires k < |Escaped(input, attribute)|
    ensures var b := Escaped(input, attribute);
            && b[k] != LT && b[k] != GT && (attribute ==> b[k] != QUOTE)
            && (b[k] == AMP ==> EntityAt(b[k..]).Some?)
  {
    var piece, rest := EscapedByte(input[0], attribute), Escaped(input[1..], attribute);
    var b := piece + rest;
    if k < |piece| {
      EscapedByteInverts(input[0], attribute, rest);
      PieceIsClean(input[0], attribute, k);
      hide EscapedByte, EntityAt;
      assert b[k] == piece[k] && b[0..] == b;
    } else {
      NoRawMarkup(input[1..], attribute, k - |piece|);
      hide EscapedByte, EntityAt;
      assert b[k] == rest[k - |piece|] && b[k..] == rest[k - |piece|..];
    }
  }

  lemma {:induction false} EscapedAppend(a: Bytes, b: Bytes, attribute: bool)
    ensures Escaped(a + b, attribute) == Escaped(a, attribute) + Escaped(b, attribute)
  {
    hide EscapedByte;
    if a == [] {
      assert a + b == b;
    } else {
      assert (a + b)[1..] == a[1..] + b;
      EscapedAppend(a[1..], b, attribute);
    }
  }

  lemma {:induction false} EncodedAppend(s: seq<int>, t: seq<int>)
    requires AreXmlChars(s) && AreXmlChars(t)
    ensures AreXmlChars(s + t) && Encoded(s + t) == Encoded(s) + Encoded(t)
  {
    hide Utf8, IsXmlChar;
    if s == [] {
      assert s + t == t;
    } else {
      assert (s + t)[1..] == s[1..] + t;
      EncodedAppend(s[1..], t);
    }
  }

  lemma {:induction false} PlainText(b: Bytes)
    requires forall k | 0 <= k < |b| :: 0x20 <= b[k] < 0x80
    ensures AreXmlChars(b) && Encoded(b) == b
  {
    if b != [] {
      PlainText(b[1..]);
    }
  }

  lemma {:induction false} HighBytesStay(b: Bytes, attribute: bool)
    requires forall k | 0 <= k < |b| :: b[k] >= 0x80
    ensures Escaped(b, attribute) == b
  {
    if b != [] {
      HighBytesStay(b[1..], attribute);
    }
  }

  lemma EscapedPlain(c: Byte, attribute: bool) returns (s: seq<int>)
    requires IsXmlChar(c) && c < 0x80
    ensures AreXmlChars(s) && Encoded(s) == Escaped([c], attribute)
  {
    assert [c][1..] == [] && Escaped([], attribute) == [] && Encoded([]) == [];
    assert Escaped([c], attribute) == EscapedByte(c, attribute);
    s := EscapedByte(c, attribute);
    if |s| > 1 {
      PlainText(s);
    } else {
      assert s == [c] && s[1..] == [] && Encoded(s) == Utf8(c);
    }
  }

  /** What is written for one character is again a text. */
  lemma EscapedChar(c: int, attribute: bool) returns (s: seq<int>)
    requires IsXmlChar(c)
    ensures AreXmlChars(s) && Encoded(s) == Escaped(Utf8(c), attribute)
  {
    if c < 0x80 {
      s := EscapedPlain(c, attribute);
    } else {
      LeadOf(c);
      HighBytesStay(Utf8(c), attribute);
      hide Utf8, IsXmlChar, Escaped;
      s := [c];
      assert s[1..] == [] && Encoded([]) == [];
    }
  }

  /** The escaped text is itself well-formed UTF-8 of XML characters. */
  lemma {:induction false} EscapedIsXmlText(t: seq<int>, attribute: bool)
    requires AreXmlChars(t)
    ensures IsXmlText(Escaped(Encoded(t), attribute))
  {
    hide Utf8, IsXmlChar, EscapedByte;
    if t == [] {
      NoCharsAtEnd();
    } else {
      EscapedIsXmlText(t[1..], attribute);
      var rest :| AreXmlChars(rest) && Encoded(rest) == Escaped(Encoded(t[1..]), attribute);
      var s := EscapedChar(t[0], attribute);
      EscapedAppend(Utf8(t[0]), Encoded(t[1..]), attribute);
      EncodedAppend(s, rest);
    }
  }
}
