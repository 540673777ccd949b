/** The decoder for Base64 and hexadecimal blocks, which is fed the text of an element piece by piece. */
module EncodedText {
  import opened Base
  import opened Text

  datatype Encoding = Base64 | Hex

  // ---------------------------------------------------------------- what the text should be

  type Sextet = v: int | 0 <= v < 64

  /** RFC 4648, table 1. */
  function Base64Digit(v: Sextet): char {
    if v < 26 then 'A' + v as char
    else if v < 52 then 'a' + (v - 26) as char
    else if v < 62 then '0' + (v - 52) as char
    else if v == 62 then '+'
    else '/'
  }

  function HexDigit(v: int): char
    requires 0 <= v < 16
  {
    if v < 10 then '0' + v as char else 'a' + (v - 10) as char
  }

  const PAD := 64

  function DigitOrPad(q: int): char {
    if 0 <= q < 64 then Base64Digit(q) else '='
  }

  function QuartetText(q: seq<int>): (t: string)
    requires |q| == 4
    ensures |t| == 4
  {
    [DigitOrPad(q[0]), DigitOrPad(q[1]), DigitOrPad(q[2]), DigitOrPad(q[3])]
  }

  /** Three bytes are four sextets; where the input ends early, zero bits fill the last sextet and padding the rest. */
  function QuartetFor(b: Bytes): (q: seq<int>)
    requires 1 <= |b| <= 3
    ensures |q| == 4
  {
    var x, y, z := b[0], if |b| > 1 then b[1] else 0, if |b| > 2 then b[2] else 0;
    [x / 4, x % 4 * 16 + y / 16, if |b| > 1 then y % 16 * 4 + z / 64 else PAD, if |b| > 2 then z % 64 else PAD]
  }

  /** RFC 4648, section 4, with the zero pad bits of section 3.5. */
  function Base64Text(b: Bytes): string {
    if b == [] then "" else if |b| <= 3 then QuartetText(QuartetFor(b)) else QuartetText(QuartetFor(b[..3])) + Base64Text(b[3..])
  }

  /** RFC 4648, section 8, in lower case. */
  function HexText(b: Bytes): string {
    if b == [] then "" else [HexDigit(b[0] / 16), HexDigit(b[0] % 16)] + HexText(b[1..])
  }

  function CanonicalText(encoding: Encoding, b: Bytes): string {
    if encoding == Base64 then Base64Text(b) else HexText(b)
  }

  /** The text without XML white space. */
  function Stripped(text: string): string {
    if text == [] then [] else if IsSpace(text[0]) then Stripped(text[1..]) else [text[0]] + Stripped(text[1..])
  }

  // ---------------------------------------------------------------- the decoder

  /** Where a decoder stands; nothing is said of one that has failed. */
  datatype Progress =
    | Broken
    | Going(quartet: seq<int>, complete: bool, high: Option<int>, count: int, output: Bytes)

  function Base64Value(c: char): (v: Option<int>)
    ensures v.Some? ==> 0 <= v.value < 64
  {
    if 'A' <= c <= 'Z' then Some((c - 'A') as int)
    else if 'a' <= c <= 'z' then Some((c - 'a') as int + 26)
    else if '0' <= c <= '9' then Some((c - '0') as int + 52)
    else if c == '+' then Some(62)
    else if c == '/' then Some(63)
    else None
  }

  function HexValue(c: char): (v: Option<int>)
    ensures v.Some? ==> 0 <= v.value < 16
  {
    if '0' <= c <= '9' then Some((c - '0') as int) else if 'a' <= c <= 'f' then Some((c - 'a') as int + 10) else None
  }

  lemma Base64DigitsInvert(v: Sextet, c: char)
    ensures Base64Value(Base64Digit(v)) == Some(v) && Base64Digit(v) != '=' && !IsSpace(Base64Digit(v))
    ensures Base64Value(c).Some? ==> Base64Digit(Base64Value(c).value) == c
  {
  }

  lemma HexDigitsInvert(v: int, c: char)
    requires 0 <= v < 16
    ensures HexValue(HexDigit(v)) == Some(v) && !IsSpace(HexDigit(v))
    ensures HexValue(c).Some? ==> HexDigit(HexValue(c).value) == c
  {
  }

  datatype Rules = Rules(encoding: Encoding, maxEncoded: U64, maxOutput: U64)

  const Fresh: Progress := Going([], false, None, 0, [])

  function Low8(v: int): Byte {
    v % 256
  }

  /** The bytes of a full quartet and whether padding ends the block here; None if no canonical text has this quartet. */
  function QuartetBytes(q: seq<int>): (r: Option<(Bytes, bool)>)
    requires |q| == 4
    ensures r.Some? ==> 1 <= |r.value.0| <= 3 && (r.value.1 <==> |r.value.0| < 3)
  {
    var x, y, z := Low8(q[0] * 4 + q[1] / 16), Low8(q[1] * 16 + q[2] / 4), Low8(q[2] * 64 + q[3]);
    if q[0] == PAD || q[1] == PAD then None
    else if q[2] == PAD then if q[3] != PAD || q[1] % 16 != 0 then None else Some(([x], true))
    else if q[3] == PAD then if q[2] % 4 != 0 then None else Some(([x, y], true))
    else Some(([x, y, z], false))
  }

  function AfterQuartet(rules: Rules, s: Progress): Progress
    requires s.Going? && |s.quartet| == 4
  {
    var bytes := QuartetBytes(s.quartet);
    if bytes.None? || |s.output| + |bytes.value.0| > rules.maxOutput then Broken
    else s.(quartet := [], complete := bytes.value.1, output := s.output + bytes.value.0)
  }

  function HexStep(rules: Rules, s: Progress, c: char): Progress
    requires s.Going?
  {
    var nibble := HexValue(c);
    if nibble.None? then Broken
    else if s.high.None? then s.(high := nibble)
    else if |s.output| >= rules.maxOutput then Broken
    else s.(high := None, output := s.output + [Low8(s.high.value * 16 + nibble.value)])
  }

  function Base64Step(rules: Rules, s: Progress, c: char): Progress
    requires s.Going? && |s.quartet| < 4
  {
    var value := if c == '=' then Some(PAD) else Base64Value(c);
    if s.complete || value.None? then Broken
    else
      var next := s.(quartet := s.quartet + [value.value]);
      if |next.quartet| == 4 then AfterQuartet(rules, next) else next
  }

  predicate InStep(s: Progress) {
    s.Going? ==> |s.quartet| < 4
  }

  /** One character. */
  function Step(rules: Rules, s: Progress, c: char): (r: Progress)
    requires InStep(s)
    ensures InStep(r)
  {
    if s.Broken? || IsSpace(c) then s
    else if s.count >= rules.maxEncoded then Broken
    else
      var counted := s.(count := s.count + 1);
      if rules.encoding == Hex then HexStep(rules, counted, c) else Base64Step(rules, counted, c)
  }

  function Feed(rules: Rules, s: Progress, text: string): (r: Progress)
    requires InStep(s)
    ensures InStep(r)
    decreases |text|
  {
    if text == [] then s else Feed(rules, Step(rules, s, text[0]), text[1..])
  }

  /** The output of a block that may be closed here. */
  function Finished(rules: Rules, s: Progress): Option<Bytes> {
    if s.Broken? || (rules.encoding == Base64 && s.quartet != []) || (rules.encoding == Hex && s.high.Some?) then None
    else Some(s.output)
  }

  /** The part of the header's parser state that belongs to the one open encoded block. */
  class Decoder {
    const rules: Rules
    var quartet: seq<int>
    var complete: bool
    var high: Option<int>
    var count: U64
    var output: Bytes
    var error: Option<ErrorCode>

    constructor (rules: Rules)
      ensures this.rules == rules && Valid() && View() == Fresh
    {
      this.rules := rules;
      quartet, complete, high, count, output, error := [], false, None, 0, [], None;
    }

    /** A decoder that goes on where another stopped. */
    constructor Resume(rules: Rules, at: Progress)
      requires at.Going? && InStep(at) && 0 <= at.count <= rules.maxEncoded && |at.output| <= rules.maxOutput
      ensures this.rules == rules && Valid() && error.None? && View() == at
    {
      this.rules := rules;
      quartet, complete, high, count, output, error := at.quartet, at.complete, at.high, at.count, at.output, None;
    }

    predicate Valid()
      reads this
    {
      && |output| <= rules.maxOutput && count <= rules.maxEncoded && InStep(View())
      && (error.Some? ==> error.value == ResourceLimit || error.value == InvalidXisf)
    }

    function View(): Progress
      reads this
    {
      if error.Some? then Broken else Going(quartet, complete, high, count, output)
    }

    /** `append_inline_byte`. */
    method AppendByte(value: Byte) returns (ok: bool)
      modifies this`output, this`error
      ensures ok == (|old(output)| < rules.maxOutput)
      ensures if ok then output == old(output) + [value] && error == old(error) else output == old(output) && error == Some(ResourceLimit)
    {
      if |output| >= rules.maxOutput {
        error := Some(ResourceLimit);
        return false;
      }
      output := output + [value];
      return true;
    }

    /** `decode_base64_quartet`, on the quartet that has just been completed. */
    method DecodeQuartet() returns (ok: bool)
      requires error.None? && |quartet| == 4 && |output| <= rules.maxOutput && !complete
      modifies this`output, this`error, this`complete
      ensures |output| <= rules.maxOutput && ok == error.None?
      ensures error.Some? ==> error.value == ResourceLimit || error.value == InvalidXisf
      ensures var expected := AfterQuartet(rules, old(Going(quartet, complete, high, count, output)));
              if ok then expected == Going([], complete, high, count, output) else expected == Broken
    {
      var q := quartet;
      if q[0] == PAD || q[1] == PAD {
        error := Some(InvalidXisf);
        return false;
      }
      ok := AppendByte(Low8(q[0] * 4 + q[1] / 16));
      if !ok {
        return false;
      }
      if q[2] == PAD {
        if q[3] != PAD || q[1] % 16 != 0 {
          error := Some(InvalidXisf);
          return false;
        }
        complete := true;
        return true;
      }
      ok := AppendByte(Low8(q[1] * 16 + q[2] / 4));
      if !ok {
        return false;
      }
      if q[3] == PAD {
        if q[2] % 4 != 0 {
          error := Some(InvalidXisf);
          return false;
        }
        complete := true;
        return true;
      }
      ok := AppendByte(Low8(q[2] * 64 + q[3]));
    }

    /** `decode_embedded_text`: one piece of character data, of any length. */
    method DecodeText(text: string)
      requires Valid()
      modifies this
      ensures Valid() && View() == Feed(rules, old(View()), text)
      ensures old(error).Some? ==> error.Some?
    {
      if error.Some? {
        FeedBroken(rules, text);
        return;
      }
      var i := 0;
      while i < |text|
        invariant 0 <= i <= |text| && Valid() && error.None?
        invariant Feed(rules, old(View()), text) == Feed(rules, View(), text[i..])
      {
        var c := text[i];
        FeedNext(rules, View(), text, i);
        FeedBroken(rules, text[i + 1..]);
        i := i + 1;
        if !IsSpace(c) {
          DecodeCharacter(c);
          if error.Some? {
            return;
          }
        }
      }
    }

    /** The body of the loop, for a character that counts. */
    method DecodeCharacter(c: char)
      requires Valid() && error.None? && !IsSpace(c)
      modifies this
      ensures Valid() && View() == Step(rules, old(View()), c)
    {
      if count >= rules.maxEncoded {
        error := Some(ResourceLimit);
        return;
      }
      count := count + 1;
      if rules.encoding == Hex {
        var nibble := HexValue(c);
        if nibble.None? {
          error := Some(InvalidXisf);
        } else if high.None? {
          high := nibble;
        } else {
          var ok := AppendByte(Low8(high.value * 16 + nibble.value));
          if ok {
            high := None;
          }
        }
        return;
      }
      if complete {
        error := Some(InvalidXisf);
        return;
      }
      var value := if c == '=' then Some(PAD) else Base64Value(c);
      if value.None? {
        error := Some(InvalidXisf);
        return;
      }
      quartet := quartet + [value.value];
      if |quartet| == 4 {
        var ok := DecodeQuartet();
        if ok {
          quartet := [];
        }
      }
    }

    /** The check at the closing tag. */
    method Close() returns (r: Result<Bytes>)
      requires Valid()
      modifies this`error
      ensures Valid() && (if Finished(rules, old(View())).Some? then r == Ok(Finished(rules, old(View())).value) else r.Err?)
    {
      if error.Some? {
        return Err(error.value);
      }
      if (rules.encoding == Base64 && quartet != []) || (rules.encoding == Hex && high.Some?) {
        error := Some(InvalidXisf);
        return Err(InvalidXisf);
      }
      return Ok(output);
    }
  }

  lemma FeedNext(rules: Rules, s: Progress, text: string, i: nat)
    requires i < |text| && InStep(s)
    ensures Feed(rules, s, text[i..]) == Feed(rules, Step(rules, s, text[i]), text[i + 1..])
  {
    assert text[i..][1..] == text[i + 1..];
  }

  lemma {:induction false} FeedBroken(rules: Rules, text: string)
    ensures Feed(rules, Broken, text) == Broken
  {
    if text != [] {
      FeedBroken(rules, text[1..]);
    }
  }

  // ---------------------------------------------------------------- pieces and white space

  /** Any split of the text gives the same state. */
  lemma {:induction false} PiecesDoNotMatter(rules: Rules, s: Progress, a: string, b: string)
    requires InStep(s)
    ensures Feed(rules, s, a + b) == Feed(rules, Feed(rules, s, a), b)
    decreases |a|
  {
    if a == [] {
      assert a + b == b;
    } else {
      assert (a + b)[1..] == a[1..] + b;
      PiecesDoNotMatter(rules, Step(rules, s, a[0]), a[1..], b);
    }
  }

  lemma {:induction false} WhiteSpaceDoesNotMatter(rules: Rules, s: Progress, text: string)
    requires InStep(s)
    ensures Feed(rules, s, text) == Feed(rules, s, Stripped(text))
    decreases |text|
  {
    if text != [] {
      hide IsSpace;
      var rest := Stripped(text[1..]);
      WhiteSpaceDoesNotMatter(rules, Step(rules, s, text[0]), text[1..]);
      if IsSpace(text[0]) {
        assert Step(rules, s, text[0]) == s;
      } else {
        assert ([text[0]] + rest)[1..] == rest;
      }
    }
  }

  predicate NoSpace(t: string) {
    forall k | 0 <= k < |t| :: !IsSpace(t[k])
  }

  lemma {:induction false} StrippedHasNoSpace(text: string)
    ensures NoSpace(Stripped(text))
  {
    if text != [] {
      StrippedHasNoSpace(text[1..]);
    }
  }

  lemma FeedLast(rules: Rules, s: Progress, t: string)
    requires InStep(s) && t != []
    ensures Feed(rules, s, t) == Step(rules, Feed(rules, s, t[..|t| - 1]), t[|t| - 1])
  {
    var front, last := t[..|t| - 1], [t[|t| - 1]];
    assert t == front + last;
    PiecesDoNotMatter(rules, s, front, last);
    assert Feed(rules, Step(rules, Feed(rules, s, front), last[0]), last[1..]) == Step(rules, Feed(rules, s, front), last[0]);
  }

  // ---------------------------------------------------------------- what is accepted is canonical

  function Symbol(c: char): Option<int> {
    if c == '=' then Some(PAD) else Base64Value(c)
  }

  predicate Spells(t: string, q: seq<int>) {
    |t| == |q| && forall k | 0 <= k < |q| :: Symbol(t[k]) == Some(q[k])
  }

  /** The text read so far is the canonical text of the output, and then the symbols that wait for a full quartet. */
  ghost predicate Base64So(rules: Rules, s: Progress, t: string) {
    s.Going? ==>
      && s.count == |t| <= rules.maxEncoded && |s.output| <= rules.maxOutput && s.high.None?
      && |s.quartet| < 4 && |s.quartet| <= |t|
      && t[..|t| - |s.quartet|] == Base64Text(s.output)
      && Spells(t[|t| - |s.quartet|..], s.quartet)
      && if s.complete then s.quartet == [] else |s.output| % 3 == 0
  }

  lemma Base64Front(c: Bytes)
    requires |c| >= 3
    ensures Base64Text(c) == QuartetText(QuartetFor(c[..3])) + Base64Text(c[3..])
  {
    hide QuartetText, QuartetFor;
    if |c| == 3 {
      assert c[..3] == c && c[3..] == [] && Base64Text([]) == "";
      assert Base64Text(c) + "" == Base64Text(c);
    }
  }

  lemma Base64Nothing()
    ensures Base64Text([]) == ""
  {
  }

  lemma {:induction false} Base64Append(a: Bytes, b: Bytes)
    requires |a| % 3 == 0
    ensures Base64Text(a + b) == Base64Text(a) + Base64Text(b)
    decreases |a|
  {
    Base64Nothing();
    hide Base64Text, QuartetText, QuartetFor;
    if a == [] {
      assert a + b == b;
    } else {
      var c, rest := a + b, a[3..];
      assert |rest| % 3 == 0;
      assert c[3..] == rest + b && c[..3] == a[..3];
      Base64Front(a);
      Base64Front(c);
      Base64Append(rest, b);
      var front := QuartetText(QuartetFor(a[..3]));
      assert front + (Base64Text(rest) + Base64Text(b)) == front + Base64Text(rest) + Base64Text(b);
    }
  }

  lemma SymbolOfDigit(c: char, q: int)
    requires Symbol(c) == Some(q)
    ensures if q == PAD then c == '=' else 0 <= q < 64 && c == Base64Digit(q)
  {
  }

  lemma QuartetSymbols(t: string, q: seq<int>)
    requires |q| == 4 && Spells(t, q)
    ensures t == QuartetText(q)
    ensures forall k | 0 <= k < 4 :: 0 <= q[k] <= PAD
  {
    forall k | 0 <= k < 4
      ensures 0 <= q[k] <= PAD && t[k] == DigitOrPad(q[k])
    {
      SymbolOfDigit(t[k], q[k]);
    }
    hide Symbol, DigitOrPad;
  }

  /** A quartet that is let through is the canonical text of its bytes. */
  lemma QuartetIsCanonical(t: string, q: seq<int>)
    requires |q| == 4 && Spells(t, q) && QuartetBytes(q).Some?
    ensures Base64Text(QuartetBytes(q).value.0) == t
  {
    QuartetSymbols(t, q);
    QuartetForInverts(q);
    hide Spells, QuartetText, QuartetFor, QuartetBytes;
    assert |QuartetBytes(q).value.0| <= 3;
  }

  lemma QuartetForInverts(q: seq<int>)
    requires |q| == 4 && QuartetBytes(q).Some? && forall k | 0 <= k < 4 :: 0 <= q[k] <= PAD
    ensures QuartetFor(QuartetBytes(q).value.0) == q
  {
    FirstByte(q[0], q[1]);
    if q[2] != PAD {
      SecondByte(q[1], q[2]);
      if q[3] != PAD {
        ThirdByte(q[2], q[3]);
      }
    }
    hide Low8;
  }

  lemma FirstByte(x: int, y: int)
    requires 0 <= x < 64 && 0 <= y < 64
    ensures Low8(x * 4 + y / 16) / 4 == x && Low8(x * 4 + y / 16) % 4 * 16 == y / 16 * 16 == y - y % 16
  {
  }

  lemma SecondByte(y: int, z: int)
    requires 0 <= y < 64 && 0 <= z < 64
    ensures Low8(y * 16 + z / 4) / 16 == y % 16 && Low8(y * 16 + z / 4) % 16 * 4 == z / 4 * 4 == z - z % 4
  {
    var h, l, k := y / 16, y % 16, z / 4;
    assert y * 16 + k == h * 256 + (l * 16 + k) && 0 <= l * 16 + k < 256;
    assert Low8(y * 16 + k) == l * 16 + k;
    assert (l * 16 + k) / 16 == l && (l * 16 + k) % 16 == k;
  }

  lemma ThirdByte(z: int, w: int)
    requires 0 <= z < 64 && 0 <= w < 64
    ensures Low8(z * 64 + w) / 64 == z % 4 && Low8(z * 64 + w) % 64 == w
  {
    var h, l := z / 4, z % 4;
    assert z * 64 + w == h * 256 + (l * 64 + w);
    assert Low8(z * 64 + w) == l * 64 + w;
  }

  lemma Base64SoStep(rules: Rules, s: Progress, t: string, c: char)
    requires rules.encoding == Base64 && InStep(s) && Base64So(rules, s, t) && !IsSpace(c)
    ensures Base64So(rules, Step(rules, s, c), t + [c])
  {
    var symbol := Symbol(c);
    if s.Going? && s.count < rules.maxEncoded && !s.complete && symbol.Some? {
      var n, q := |t| - |s.quartet|, s.quartet + [symbol.value];
      var tail := t[n..] + [c];
      SymbolStep(rules, s, c, symbol.value);
      SpellsMore(t[n..], s.quartet, c);
      assert t + [c] == t[..n] + tail;
      assert (t + [c])[n..] == tail && (t + [c])[..n] == t[..n];
      hide Base64Text, QuartetBytes, Spells, Symbol, Step;
      if |q| == 4 {
        QuartetCloses(rules, s, t, n, tail, q);
      }
    }
  }

  lemma SpellsMore(t: string, q: seq<int>, c: char)
    requires Spells(t, q) && Symbol(c).Some?
    ensures Spells(t + [c], q + [Symbol(c).value])
  {
    hide Symbol;
  }

  lemma SpellsNothing()
    ensures Spells("", [])
  {
  }

  lemma QuartetCloses(rules: Rules, s: Progress, t: string, n: int, tail: string, q: seq<int>)
    requires s.Going? && |q| == 4 && Spells(tail, q) && 0 <= n <= |t| && s.high.None?
    requires |s.output| % 3 == 0 && t[..n] == Base64Text(s.output) && |t| + 1 == |t[..n] + tail| == s.count + 1 <= rules.maxEncoded
    ensures Base64So(rules, AfterQuartet(rules, s.(count := s.count + 1, quartet := q)), t[..n] + tail)
  {
    hide Base64Text, Spells, QuartetBytes;
    SpellsNothing();
    var whole := t[..n] + tail;
    assert whole[..|whole|] == whole && whole[|whole|..] == [];
    if QuartetBytes(q).Some? {
      QuartetIsCanonical(tail, q);
      Base64Append(s.output, QuartetBytes(q).value.0);
    }
  }

  lemma {:induction false} Base64Accepts(rules: Rules, t: string)
    requires rules.encoding == Base64 && NoSpace(t)
    ensures Base64So(rules, Feed(rules, Fresh, t), t)
    decreases |t|
  {
    if t != [] {
      var front := t[..|t| - 1];
      Base64Accepts(rules, front);
      FeedLast(rules, Fresh, t);
      Base64SoStep(rules, Feed(rules, Fresh, front), front, t[|t| - 1]);
      assert front + [t[|t| - 1]] == t;
    }
  }

  // ---------------------------------------------------------------- what is canonical is accepted

  lemma SymbolStep(rules: Rules, s: Progress, c: char, v: int)
    requires rules.encoding == Base64 && s.Going? && |s.quartet| < 4 && !s.complete
    requires Symbol(c) == Some(v) && !IsSpace(c) && s.count < rules.maxEncoded
    ensures var next := s.(count := s.count + 1, quartet := s.quartet + [v]);
            Step(rules, s, c) == if |next.quartet| == 4 then AfterQuartet(rules, next) else next
  {
    hide AfterQuartet;
  }

  lemma {:induction false} FeedPart(rules: Rules, s: Progress, t: string, q: seq<int>, k: nat)
    requires rules.encoding == Base64 && s.Going? && s.quartet == [] && !s.complete && k <= 3
    requires |q| == 4 && Spells(t, q) && NoSpace(t) && s.count + 4 <= rules.maxEncoded
    ensures Feed(rules, s, t[..k]) == s.(count := s.count + k, quartet := q[..k])
  {
    if k > 0 {
      FeedPart(rules, s, t, q, k - 1);
      hide Step, Symbol, IsSpace, Feed;
      assert t[..k][..k - 1] == t[..k - 1] && q[..k - 1] + [q[k - 1]] == q[..k];
      FeedLast(rules, s, t[..k]);
      SymbolStep(rules, s.(count := s.count + (k - 1), quartet := q[..k - 1]), t[k - 1], q[k - 1]);
    }
  }

  /** A quartet of symbols, fed to a decoder that waits for one. */
  lemma FeedQuartet(rules: Rules, s: Progress, t: string, q: seq<int>)
    requires rules.encoding == Base64 && s.Going? && s.quartet == [] && !s.complete
    requires |q| == 4 && Spells(t, q) && NoSpace(t) && s.count + 4 <= rules.maxEncoded
    ensures Feed(rules, s, t) == AfterQuartet(rules, s.(count := s.count + 4, quartet := q))
  {
    hide AfterQuartet, Step, Symbol, IsSpace, Feed;
    FeedPart(rules, s, t, q, 3);
    FeedLast(rules, s, t);
    assert q[..3] + [q[3]] == q;
    SymbolStep(rules, s.(count := s.count + 3, quartet := q[..3]), t[3], q[3]);
  }

  lemma QuartetForBytes(b: Bytes)
    requires 1 <= |b| <= 3
    ensures QuartetBytes(QuartetFor(b)) == Some((b, |b| < 3))
    ensures forall k | 0 <= k < 4 :: 0 <= QuartetFor(b)[k] <= PAD
  {
    var x, y, z := b[0], if |b| > 1 then b[1] else 0, if |b| > 2 then b[2] else 0;
    QuartetValues(x, y, z);
    hide Low8;
    assert b == if |b| == 1 then [x] else if |b| == 2 then [x, y] else [x, y, z];
  }

  lemma QuartetSpells(q: seq<int>)
    requires |q| == 4 && forall k | 0 <= k < 4 :: 0 <= q[k] <= PAD
    ensures Spells(QuartetText(q), q) && NoSpace(QuartetText(q))
  {
    forall k | 0 <= k < 4
      ensures Symbol(QuartetText(q)[k]) == Some(q[k]) && !IsSpace(QuartetText(q)[k])
    {
      assert QuartetText(q)[k] == DigitOrPad(q[k]);
      if q[k] < 64 {
        Base64DigitsInvert(q[k], ' ');
      }
      hide QuartetText;
    }
    hide Symbol, IsSpace;
  }

  lemma QuartetValues(x: Byte, y: Byte, z: Byte)
    ensures var q0, q1, q2, q3 := x / 4, x % 4 * 16 + y / 16, y % 16 * 4 + z / 64, z % 64;
            && 0 <= q0 < 64 && 0 <= q1 < 64 && 0 <= q2 < 64 && 0 <= q3 < 64
            && Low8(q0 * 4 + q1 / 16) == x && Low8(q1 * 16 + q2 / 4) == y && Low8(q2 * 64 + q3) == z
            && q1 % 16 == y / 16 && q2 % 4 == z / 64
  {
    Digits(x % 4, y / 16, 16);
    Digits(y % 16, z / 64, 4);
    LowByte(x % 4, y);
    LowByte(y % 16, z);
  }

  lemma Digits(high: int, low: int, base: int)
    requires base == 4 || base == 16
    requires 0 <= low < base
    ensures (high * base + low) / base == high && (high * base + low) % base == low
  {
  }

  lemma LowByte(high: int, low: Byte)
    ensures Low8(high * 256 + low) == low
  {
  }

  /** One group of bytes; less than three end the block. */
  lemma GroupDecodes(rules: Rules, s: Progress, b: Bytes)
    requires rules.encoding == Base64 && s.Going? && s.quartet == [] && !s.complete && 1 <= |b| <= 3
    requires s.count + 4 <= rules.maxEncoded && |s.output| + |b| <= rules.maxOutput
    ensures |Base64Text(b)| == 4 && NoSpace(Base64Text(b))
    ensures Feed(rules, s, Base64Text(b)) == s.(count := s.count + 4, output := s.output + b, complete := |b| < 3)
  {
    QuartetForBytes(b);
    assert Base64Text(b) == QuartetText(QuartetFor(b));
    QuartetSpells(QuartetFor(b));
    hide Base64Text, QuartetBytes, QuartetFor, Feed, Spells, NoSpace, QuartetText;
    FeedQuartet(rules, s, Base64Text(b), QuartetFor(b));
  }

  lemma {:induction false} Base64Decodes(rules: Rules, s: Progress, b: Bytes)
    requires rules.encoding == Base64 && s.Going? && s.quartet == [] && !s.complete && s.high.None?
    requires s.count + |Base64Text(b)| <= rules.maxEncoded && |s.output| + |b| <= rules.maxOutput
    ensures NoSpace(Base64Text(b))
    ensures Finished(rules, Feed(rules, s, Base64Text(b))) == Some(s.output + b)
    decreases |b|
  {
    if b == [] {
      assert s.output + b == s.output;
    } else if |b| <= 3 {
      GroupDecodes(rules, s, b);
    } else {
      var front, rest := b[..3], b[3..];
      assert s.output + b == s.output + front + rest;
      Base64Front(b);
      assert Base64Text(front) == QuartetText(QuartetFor(front));
      hide Base64Text, IsSpace, Feed, Finished, QuartetText, QuartetFor;
      GroupDecodes(rules, s, front);
      var next := s.(count := s.count + 4, output := s.output + front, complete := false);
      Base64Decodes(rules, next, rest);
      PiecesDoNotMatter(rules, s, Base64Text(front), Base64Text(rest));
    }
  }

  // ---------------------------------------------------------------- hexadecimal

  /** The text read so far is the text of the output, and then the half of a byte that waits for the other. */
  ghost predicate HexSo(rules: Rules, s: Progress, t: string) {
    s.Going? ==>
      && s.count == |t| <= rules.maxEncoded && |s.output| <= rules.maxOutput
      && (s.high.None? ==> t == HexText(s.output))
      && (s.high.Some? ==> 0 <= s.high.value < 16 && t == HexText(s.output) + [HexDigit(s.high.value)])
  }

  lemma {:induction false} HexAppend(a: Bytes, x: Byte)
    ensures HexText(a + [x]) == HexText(a) + [HexDigit(x / 16), HexDigit(x % 16)]
    decreases |a|
  {
    hide HexDigit;
    if a == [] {
      assert a + [x] == [x] && [x][1..] == [] && HexText([x][1..]) == "";
    } else {
      assert (a + [x])[1..] == a[1..] + [x];
      HexAppend(a[1..], x);
    }
  }

  lemma TwoNibbles(high: int, low: int)
    requires 0 <= high < 16 && 0 <= low < 16
    ensures var x := Low8(high * 16 + low); x / 16 == high && x % 16 == low
  {
  }

  lemma HexSoStep(rules: Rules, s: Progress, t: string, c: char)
    requires rules.encoding == Hex && InStep(s) && HexSo(rules, s, t) && !IsSpace(c)
    ensures HexSo(rules, Step(rules, s, c), t + [c])
  {
    var nibble := HexValue(c);
    if s.Going? && nibble.Some? {
      HexDigitsInvert(nibble.value, c);
      if s.high.Some? {
        TwoNibbles(s.high.value, nibble.value);
        HexAppend(s.output, Low8(s.high.value * 16 + nibble.value));
      }
    }
    hide HexDigit, HexText, HexValue, Low8, IsSpace;
  }

  lemma {:induction false} HexAccepts(rules: Rules, t: string)
    requires rules.encoding == Hex && NoSpace(t)
    ensures HexSo(rules, Feed(rules, Fresh, t), t)
    decreases |t|
  {
    if t != [] {
      var front := t[..|t| - 1];
      HexAccepts(rules, front);
      FeedLast(rules, Fresh, t);
      HexSoStep(rules, Feed(rules, Fresh, front), front, t[|t| - 1]);
      assert front + [t[|t| - 1]] == t;
    }
  }

  lemma HexPair(rules: Rules, s: Progress, x: Byte)
    requires rules.encoding == Hex && s.Going? && InStep(s) && s.high.None?
    requires s.count + 2 <= rules.maxEncoded && |s.output| < rules.maxOutput
    ensures Feed(rules, s, [HexDigit(x / 16), HexDigit(x % 16)]) == s.(count := s.count + 2, output := s.output + [x])
    ensures NoSpace([HexDigit(x / 16), HexDigit(x % 16)])
  {
    var h, l := x / 16, x % 16;
    var t := [HexDigit(h), HexDigit(l)];
    HexDigitsInvert(h, ' ');
    HexDigitsInvert(l, ' ');
    assert Low8(h * 16 + l) == x;
    hide HexDigit, HexValue, Low8, IsSpace;
    var middle := s.(count := s.count + 1, high := Some(h));
    assert Step(rules, s, t[0]) == middle;
    var end := s.(count := s.count + 2, output := s.output + [x]);
    assert Step(rules, middle, t[1]) == end;
    assert t[1..] == [t[1]] && [t[1]][1..] == [];
    assert Feed(rules, end, []) == end;
    assert Feed(rules, middle, [t[1]]) == end;
  }

  lemma {:induction false} HexDecodes(rules: Rules, s: Progress, b: Bytes)
    requires rules.encoding == Hex && s.Going? && InStep(s) && s.high.None?
    requires s.count + |HexText(b)| <= rules.maxEncoded && |s.output| + |b| <= rules.maxOutput
    ensures NoSpace(HexText(b))
    ensures Finished(rules, Feed(rules, s, HexText(b))) == Some(s.output + b)
    decreases |b|
  {
    if b == [] {
      assert s.output + b == s.output;
    } else {
      var pair, rest := [HexDigit(b[0] / 16), HexDigit(b[0] % 16)], b[1..];
      HexPair(rules, s, b[0]);
      assert HexText(b) == pair + HexText(rest);
      assert s.output + b == s.output + [b[0]] + rest;
      hide HexText, HexDigit, Feed, Finished;
      HexDecodes(rules, s.(count := s.count + 2, output := s.output + [b[0]]), rest);
      PiecesDoNotMatter(rules, s, pair, HexText(rest));
    }
  }

  // ---------------------------------------------------------------- the main results

  /** A text is accepted as the encoding of `b` exactly if, white space aside, it is the canonical encoding within the limits. */
  lemma AcceptsExactlyCanonical(rules: Rules, text: string, b: Bytes)
    ensures Finished(rules, Feed(rules, Fresh, text)) == Some(b)
       <==> Stripped(text) == CanonicalText(rules.encoding, b) && |Stripped(text)| <= rules.maxEncoded && |b| <= rules.maxOutput
  {
    var t := Stripped(text);
    WhiteSpaceDoesNotMatter(rules, Fresh, text);
    StrippedHasNoSpace(text);
    hide Feed, Stripped, NoSpace, Finished, Base64Text, HexText;
    if rules.encoding == Base64 {
      Base64IsExact(rules, t, b);
    } else {
      HexIsExact(rules, t, b);
    }
  }

  lemma Base64IsExact(rules: Rules, t: string, b: Bytes)
    requires rules.encoding == Base64 && NoSpace(t)
    ensures Finished(rules, Feed(rules, Fresh, t)) == Some(b)
       <==> t == Base64Text(b) && |t| <= rules.maxEncoded && |b| <= rules.maxOutput
  {
    hide Feed, Base64Text, NoSpace, Spells;
    Base64Accepts(rules, t);
    var end := Feed(rules, Fresh, t);
    if end.Going? && end.quartet == [] {
      Base64AtEnd(rules, end, t);
    }
    if t == Base64Text(b) && |t| <= rules.maxEncoded && |b| <= rules.maxOutput {
      Base64Decodes(rules, Fresh, b);
      assert Fresh.output + b == b;
    }
  }

  lemma HexIsExact(rules: Rules, t: string, b: Bytes)
    requires rules.encoding == Hex && NoSpace(t)
    ensures Finished(rules, Feed(rules, Fresh, t)) == Some(b)
       <==> t == HexText(b) && |t| <= rules.maxEncoded && |b| <= rules.maxOutput
  {
    hide Feed, HexText, NoSpace;
    HexAccepts(rules, t);
    if t == HexText(b) && |t| <= rules.maxEncoded && |b| <= rules.maxOutput {
      HexDecodes(rules, Fresh, b);
      assert Fresh.output + b == b;
    }
  }

  lemma Base64AtEnd(rules: Rules, s: Progress, t: string)
    requires Base64So(rules, s, t) && s.Going? && s.quartet == []
    ensures t == Base64Text(s.output)
  {
    assert t[..|t|] == t;
  }

  /** However the text is cut into pieces. */
  function FeedPieces(rules: Rules, s: Progress, pieces: seq<string>): (r: Progress)
    requires InStep(s)
    ensures InStep(r)
    decreases |pieces|
  {
    if pieces == [] then s else FeedPieces(rules, Feed(rules, s, pieces[0]), pieces[1..])
  }

  function Joined(pieces: seq<string>): string {
    if pieces == [] then "" else pieces[0] + Joined(pieces[1..])
  }

  lemma {:induction false} PieceByPiece(rules: Rules, s: Progress, pieces: seq<string>)
    requires InStep(s)
    ensures FeedPieces(rules, s, pieces) == Feed(rules, s, Joined(pieces))
    decreases |pieces|
  {
    if pieces != [] {
      PieceByPiece(rules, Feed(rules, s, pieces[0]), pieces[1..]);
      PiecesDoNotMatter(rules, s, pieces[0], Joined(pieces[1..]));
    }
  }
}
