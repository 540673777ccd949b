/** Exactly which attribute texts the reader takes for a block, and as what: their grammar, and the conditions on its numbers. */
module DescriptorGrammar {
  import opened Base
  import opened Text
  import opened Descriptors
  import Mul

  /** A text of digits that stands for this number. */
  predicate Denotes(text: string, n: int) {
    text != "" && AllDigits(text, 10) && ValueOf(text, 10) == n
  }

  /** The names of the codecs, with a mark for the byte shuffle. */
  predicate IsToken(token: string, kind: CodecKind, shuffled: bool) {
    match kind
    case NoCodec => false
    case Zlib => token == if shuffled then "zlib+sh" else "zlib"
    case Lz4 => token == if shuffled then "lz4+sh" else "lz4"
    case Lz4hc => token == if shuffled then "lz4hc+sh" else "lz4hc"
    case Zstd => token == if shuffled then "zstd+sh" else "zstd"
  }

  /** `codec:size`, or `codec+sh:size:item`. */
  predicate HeadText(text: string, token: string, size: string, item: string, shuffled: bool) {
    text == token + ([':'] + if shuffled then size + ([':'] + item) else size)
  }

  ghost predicate SpellsHead(text: string, plan: CompressionPlan) {
    exists token, size, item ::
      && HeadText(text, token, size, item, plan.byteShuffled)
      && IsToken(token, plan.kind, plan.byteShuffled) && Denotes(size, plan.uncompressedSize)
      && (plan.byteShuffled ==> Denotes(item, plan.itemSize))
  }

  predicate PairText(text: string, compressed: string, uncompressed: string) {
    text == compressed + ([','] + uncompressed)
  }

  /** `compressed,uncompressed`. */
  ghost predicate SpellsPair(text: string, pair: Subblock) {
    exists c, u :: PairText(text, c, u) && Denotes(c, pair.compressed) && Denotes(u, pair.uncompressed)
  }

  /** Pairs with colons between them. */
  ghost predicate SpellsPairs(text: string, list: seq<Subblock>)
    decreases |list|
  {
    if list == [] then false
    else if |list| == 1 then SpellsPair(text, list[0])
    else exists first, rest :: text == first + ([':'] + rest) && SpellsPair(first, list[0]) && SpellsPairs(rest, list[1..])
  }

  // ---------------------------------------------------------------- numbers and tokens

  lemma ParsesExactly(text: string, n: U64)
    ensures ParseUnsigned(text) == Some(n) <==> Denotes(text, n)
  {
  }

  lemma DigitsAreFree(text: string, n: int, c: char)
    requires Denotes(text, n) && !IsDigit(c, 10)
    ensures Free(text, c)
  {
    forall k | 0 <= k < |text|
      ensures text[k] != c
    {
      assert IsDigit(text[k], 10);
    }
  }

  lemma TokenIsExact(token: string, kind: CodecKind, shuffled: bool)
    ensures CodecOf(token) == Some((kind, shuffled)) <==> IsToken(token, kind, shuffled)
  {
  }

  lemma TokensAreFree(token: string, kind: CodecKind, shuffled: bool)
    requires IsToken(token, kind, shuffled)
    ensures Free(token, ':')
  {
  }

  /** Joining the parts of a text gives the text again. */
  lemma {:induction false} JoinOfSplit(s: string, c: char, start: int)
    requires 0 <= start <= |s|
    ensures Join(Split(s, c, start), c) == s[start..]
    ensures PartsFree(Split(s, c, start), c)
    decreases |s| - start
  {
    hide Find;
    var end := Find(s, c, start);
    assert Free(s[start..end], c) by {
      assert forall k | 0 <= k < end - start :: s[start..end][k] == s[start + k];
    }
    if end < |s| {
      JoinOfSplit(s, c, end + 1);
      assert s[start..] == s[start..end] + ([c] + s[end + 1..]);
    } else {
      assert s[start..] == s[start..end];
    }
  }

  // ---------------------------------------------------------------- pairs

  lemma PairIsExact(part: string, pair: Subblock)
    ensures PairOf(part) == Some(pair) <==> SpellsPair(part, pair) && pair.compressed > 0 && pair.uncompressed > 0
  {
    if PairOf(part) == Some(pair) {
      PairSpells(part, pair);
    }
    if SpellsPair(part, pair) && pair.compressed > 0 && pair.uncompressed > 0 {
      var c, u :| PairText(part, c, u) && Denotes(c, pair.compressed) && Denotes(u, pair.uncompressed);
      SpelledPair(part, c, u, pair);
    }
  }

  lemma PairSpells(part: string, pair: Subblock)
    requires PairOf(part) == Some(pair)
    ensures SpellsPair(part, pair) && pair.compressed > 0 && pair.uncompressed > 0
  {
    hide Find;
    var comma := Find(part, ',', 0);
    var c, u := part[..comma], part[comma + 1..];
    assert part == c + ([','] + u);
    ParsesExactly(c, pair.compressed);
    ParsesExactly(u, pair.uncompressed);
    assert PairText(part, c, u);
  }

  lemma SpelledPair(part: string, c: string, u: string, pair: Subblock)
    requires PairText(part, c, u) && Denotes(c, pair.compressed) && Denotes(u, pair.uncompressed)
    requires pair.compressed > 0 && pair.uncompressed > 0
    ensures PairOf(part) == Some(pair) && Free(part, ':')
  {
    DigitsAreFree(c, pair.compressed, ',');
    DigitsAreFree(u, pair.uncompressed, ',');
    DigitsAreFree(c, pair.compressed, ':');
    DigitsAreFree(u, pair.uncompressed, ':');
    ParsesExactly(c, pair.compressed);
    ParsesExactly(u, pair.uncompressed);
    hide Denotes, AllDigits;
    FindUnique(part, ',', 0, |c|);
    FindUnique(part, ',', |c| + 1, |part|);
    assert part[..|c|] == c && part[|c| + 1..] == u;
  }

  lemma SpelledIsFree(part: string, pair: Subblock)
    requires SpellsPair(part, pair)
    ensures Free(part, ':') && part != ""
  {
    var c, u :| PairText(part, c, u) && Denotes(c, pair.compressed) && Denotes(u, pair.uncompressed);
    DigitsAreFree(c, pair.compressed, ':');
    DigitsAreFree(u, pair.uncompressed, ':');
  }

  /** Every piece has bytes on both sides. */
  predicate AllPositive(list: seq<Subblock>) {
    forall i | 0 <= i < |list| :: list[i].compressed > 0 && list[i].uncompressed > 0
  }

  /** A list that is spelled, not too long, and whose sums fit. */
  ghost predicate GoodPairs(text: string, list: seq<Subblock>, room: int, c: U64, u: U64) {
    && SpellsPairs(text, list) && AllPositive(list) && |list| <= room
    && c + TotalCompressed(list) <= MAX_U64 && u + TotalUncompressed(list) <= MAX_U64
  }

  lemma OneSpelled(text: string, first: Subblock)
    ensures SpellsPairs(text, [first]) <==> SpellsPair(text, first)
    ensures TotalCompressed([first]) == first.compressed && TotalUncompressed([first]) == first.uncompressed
  {
    assert [first][1..] == [];
  }

  lemma MoreSpelled(part: string, rest: string, first: Subblock, list: seq<Subblock>)
    requires SpellsPair(part, first) && SpellsPairs(rest, list)
    ensures SpellsPairs(part + ([':'] + rest), [first] + list)
  {
    hide SpellsPair;
    var all := [first] + list;
    assert list != [] && all[1..] == list && all[0] == first;
    assert SpellsPair(part, all[0]) && SpellsPairs(rest, all[1..]);
  }

  lemma TotalsFrom(first: Subblock, list: seq<Subblock>)
    ensures TotalCompressed([first] + list) == first.compressed + TotalCompressed(list)
    ensures TotalUncompressed([first] + list) == first.uncompressed + TotalUncompressed(list)
  {
    assert ([first] + list)[1..] == list;
  }

  /** What is read is spelled. */
  lemma {:induction false} PairsSpell(text: string, start: int, room: int, c: U64, u: U64, list: seq<Subblock>)
    requires 0 <= start <= |text| && PairsOf(text, start, room, c, u) == Ok(list)
    ensures GoodPairs(text[start..], list, room, c, u)
    decreases |text| - start
  {
    hide Find, PairOf, SpellsPair, SpellsPairs, TotalCompressed, TotalUncompressed;
    var end := Find(text, ':', start);
    var first := list[0];
    PairIsExact(text[start..end], first);
    if end == |text| {
      assert text[start..] == text[start..end] && list == [first];
      OneSpelled(text[start..], first);
    } else {
      var rest := PairsOf(text, end + 1, room - 1, c + first.compressed, u + first.uncompressed).value;
      assert list == [first] + rest;
      PairsSpell(text, end + 1, room - 1, c + first.compressed, u + first.uncompressed, rest);
      hide PairsOf;
      assert text[start..] == text[start..end] + ([':'] + text[end + 1..]);
      MoreSpelled(text[start..end], text[end + 1..], first, rest);
      TotalsFrom(first, rest);
    }
  }

  /** The first pair of several, and the others. */
  lemma FirstSpelled(tail: string, list: seq<Subblock>) returns (part: string, rest: string)
    requires SpellsPairs(tail, list) && |list| > 1
    ensures tail == part + ([':'] + rest) && SpellsPair(part, list[0]) && SpellsPairs(rest, list[1..])
  {
    hide SpellsPair;
    part, rest :| tail == part + ([':'] + rest) && SpellsPair(part, list[0]) && SpellsPairs(rest, list[1..]);
  }

  lemma OneRead(text: string, start: int, room: int, c: U64, u: U64, first: Subblock)
    requires 0 <= start <= |text| && 0 < room && SpellsPair(text[start..], first) && first.compressed > 0 && first.uncompressed > 0
    requires c + first.compressed <= MAX_U64 && u + first.uncompressed <= MAX_U64
    ensures PairsOf(text, start, room, c, u) == Ok([first])
  {
    var tail := text[start..];
    SpelledIsFree(tail, first);
    PairIsExact(tail, first);
    hide Find, PairOf, SpellsPair;
    assert forall k | start <= k < |text| :: text[k] == tail[k - start];
    FindUnique(text, ':', start, |text|);
    assert text[start..|text|] == tail;
  }

  /** One step over a part that is read as `first`. */
  lemma PairsStep(text: string, start: int, end: int, room: int, c: U64, u: U64, first: Subblock)
    requires 0 <= start <= |text| && 0 < room && Find(text, ':', start) == end < |text| && PairOf(text[start..end]) == Some(first)
    requires c + first.compressed <= MAX_U64 && u + first.uncompressed <= MAX_U64
    ensures PairsOf(text, start, room, c, u)
         == var others := PairsOf(text, end + 1, room - 1, c + first.compressed, u + first.uncompressed);
            if others.Err? then others else Ok([first] + others.value)
  {
    hide Find, PairOf;
  }

  lemma PartEnds(text: string, start: nat, part: string, rest: string)
    requires start <= |text| && text[start..] == part + ([':'] + rest) && Free(part, ':')
    ensures var end := start + |part|;
            && end < |text| && text[start..end] == part && text[end + 1..] == rest && Find(text, ':', start) == end
  {
    hide Find;
    var tail, end := text[start..], start + |part|;
    assert |tail| == |part| + 1 + |rest| && tail[|part|] == ':';
    assert text[start..end] == tail[..|part|] == part;
    assert text[end + 1..] == tail[|part| + 1..] == rest;
    forall k | start <= k < end
      ensures text[k] != ':'
    {
      assert text[k] == part[k - start];
    }
    FindUnique(text, ':', start, end);
  }

  /** What is spelled is read. */
  lemma {:induction false} SpelledPairs(text: string, start: int, room: int, c: U64, u: U64, list: seq<Subblock>)
    requires 0 <= start <= |text| && list != [] && GoodPairs(text[start..], list, room, c, u)
    ensures PairsOf(text, start, room, c, u) == Ok(list)
    decreases |list|
  {
    hide SpellsPair, SpellsPairs, PairsOf, TotalCompressed, TotalUncompressed;
    var first, others := list[0], list[1..];
    assert list == [first] + others && list[0].compressed > 0;
    TotalsFrom(first, others);
    if |list| == 1 {
      assert list == [first];
      OneSpelled(text[start..], first);
      OneRead(text, start, room, c, u, first);
    } else {
      var part, rest := FirstSpelled(text[start..], list);
      SpelledIsFree(part, first);
      PairIsExact(part, first);
      PartEnds(text, start, part, rest);
      hide Free, PairOf, Find;
      PairsStep(text, start, start + |part|, room, c, u, first);
      assert AllPositive(others);
      SpelledPairs(text, start + |part| + 1, room - 1, c + first.compressed, u + first.uncompressed, others);
    }
  }

  // ---------------------------------------------------------------- the result

  /** The conditions on the numbers of a compressed block. */
  predicate GoodSizes(plan: CompressionPlan, serialized: U64, expected: Option<U64>, limits: PlanLimits, item: U64) {
    && plan.kind != NoCodec && plan.uncompressedSize > 0 && serialized > 0
    && (expected.Some? ==> plan.uncompressedSize == expected.value)
    && (if plan.byteShuffled then plan.itemSize == item && item > 0 else plan.itemSize == 1)
    && plan.uncompressedSize <= limits.maxDecoded && plan.uncompressedSize <= serialized * limits.maxRatio
  }

  /** One piece that need not be spelled, or pieces that are, and that add up. */
  ghost predicate GoodPieces(subblocks: string, plan: CompressionPlan, serialized: U64, limits: PlanLimits) {
    if subblocks == "" then plan.subblocks == [Subblock(serialized, plan.uncompressedSize)]
    else
      && SpellsPairs(subblocks, plan.subblocks) && AllPositive(plan.subblocks) && |plan.subblocks| <= limits.maxSubblocks
      && TotalCompressed(plan.subblocks) == serialized && TotalUncompressed(plan.subblocks) == plan.uncompressedSize
  }

  lemma HeadIsExact(
    compression: string, serialized: U64, expected: Option<U64>, limits: PlanLimits, item: U64, plan: CompressionPlan)
    requires plan.subblocks == []
    ensures var tokens := Split(compression, ':', 0);
            (!MoreThanThree(tokens) && HeadPlan(tokens, serialized, expected, limits, item) == Ok(plan))
            <==> SpellsHead(compression, plan) && GoodSizes(plan, serialized, expected, limits, item)
  {
    var tokens := Split(compression, ':', 0);
    if !MoreThanThree(tokens) && HeadPlan(tokens, serialized, expected, limits, item) == Ok(plan) {
      HeadSpells(compression, serialized, expected, limits, item, plan);
    }
    if SpellsHead(compression, plan) && GoodSizes(plan, serialized, expected, limits, item) {
      SpelledHead(compression, serialized, expected, limits, item, plan);
    }
  }

  lemma Ratio(size: U64, serialized: U64, ratio: U64)
    ensures size > CheckedMultiply(serialized, ratio).GetOr(MAX_U64) <==> size > serialized * ratio
  {
    CheckedMultiplyExact(serialized, ratio);
  }

  /** The texts between the colons of a head. */
  predicate HeadParts(tokens: Parts, token: string, size: string, item: string, shuffled: bool) {
    tokens == if shuffled then Part(token, Part(size, Last(item))) else Part(token, Last(size))
  }

  lemma JoinOfHead(tokens: Parts, token: string, size: string, item: string, shuffled: bool)
    requires HeadParts(tokens, token, size, item, shuffled)
    ensures HeadText(Join(tokens, ':'), token, size, item, shuffled)
  {
    assert Join(Last(size), ':') == size && Join(Last(item), ':') == item;
    assert Join(Part(size, Last(item)), ':') == size + ([':'] + item);
  }

  lemma SplitOfHead(text: string, token: string, size: string, item: string, shuffled: bool) returns (tokens: Parts)
    requires HeadText(text, token, size, item, shuffled)
    requires Free(token, ':') && Free(size, ':') && (shuffled ==> Free(item, ':'))
    ensures tokens == Split(text, ':', 0) && HeadParts(tokens, token, size, item, shuffled)
  {
    tokens := if shuffled then Part(token, Part(size, Last(item))) else Part(token, Last(size));
    JoinOfHead(tokens, token, size, item, shuffled);
    hide Split, Free;
    assert "" + text == text && text == Join(tokens, ':');
    if shuffled {
      assert PartsFree(Last(item), ':') && PartsFree(Part(size, Last(item)), ':');
    } else {
      assert PartsFree(Last(size), ':');
    }
    SplitOfJoin("", tokens, ':');
  }

  /** What a head of the right shape is read as. */
  lemma HeadOfParts(
    tokens: Parts, token: string, size: string, third: string, plan: CompressionPlan,
    serialized: U64, expected: Option<U64>, limits: PlanLimits, item: U64)
    requires HeadParts(tokens, token, size, third, plan.byteShuffled)
    ensures (HeadPlan(tokens, serialized, expected, limits, item) == Ok(plan))
       <==> && IsToken(token, plan.kind, plan.byteShuffled) && Denotes(size, plan.uncompressedSize)
            && (plan.byteShuffled ==> Denotes(third, plan.itemSize))
            && GoodSizes(plan, serialized, expected, limits, item) && plan.subblocks == []
  {
    TokenIsExact(token, plan.kind, plan.byteShuffled);
    ParsesExactly(size, plan.uncompressedSize);
    ParsesExactly(third, plan.itemSize);
    Ratio(plan.uncompressedSize, serialized, limits.maxRatio);
    assert IsToken(token, plan.kind, plan.byteShuffled) ==> plan.kind != NoCodec;
    hide CodecOf, IsToken, Denotes, CheckedMultiply;
  }

  lemma HeadSpells(
    compression: string, serialized: U64, expected: Option<U64>, limits: PlanLimits, item: U64, plan: CompressionPlan)
    requires var tokens := Split(compression, ':', 0);
             !MoreThanThree(tokens) && HeadPlan(tokens, serialized, expected, limits, item) == Ok(plan)
    ensures SpellsHead(compression, plan) && GoodSizes(plan, serialized, expected, limits, item)
  {
    var tokens := Split(compression, ':', 0);
    JoinOfSplit(compression, ':', 0);
    assert compression[0..] == compression;
    hide Split, IsToken, Denotes, GoodSizes;
    var token, size, third := HeadHasParts(tokens, serialized, expected, limits, item, plan);
    JoinOfHead(tokens, token, size, third, plan.byteShuffled);
    HeadOfParts(tokens, token, size, third, plan, serialized, expected, limits, item);
  }

  lemma HeadHasParts(
    tokens: Parts, serialized: U64, expected: Option<U64>, limits: PlanLimits, item: U64, plan: CompressionPlan)
    returns (token: string, size: string, third: string)
    requires !MoreThanThree(tokens) && HeadPlan(tokens, serialized, expected, limits, item) == Ok(plan)
    ensures HeadParts(tokens, token, size, third, plan.byteShuffled)
  {
    hide CodecOf, ParseUnsigned, CheckedMultiply;
    token, size := tokens.text, tokens.rest.text;
    third := if plan.byteShuffled then tokens.rest.rest.text else "";
  }

  lemma SpelledHead(
    compression: string, serialized: U64, expected: Option<U64>, limits: PlanLimits, item: U64, plan: CompressionPlan)
    requires SpellsHead(compression, plan) && GoodSizes(plan, serialized, expected, limits, item) && plan.subblocks == []
    ensures var tokens := Split(compression, ':', 0);
            !MoreThanThree(tokens) && HeadPlan(tokens, serialized, expected, limits, item) == Ok(plan)
  {
    var token, size, third :|
      && HeadText(compression, token, size, third, plan.byteShuffled)
      && IsToken(token, plan.kind, plan.byteShuffled) && Denotes(size, plan.uncompressedSize)
      && (plan.byteShuffled ==> Denotes(third, plan.itemSize));
    TokensAreFree(token, plan.kind, plan.byteShuffled);
    DigitsAreFree(size, plan.uncompressedSize, ':');
    if plan.byteShuffled {
      DigitsAreFree(third, plan.itemSize, ':');
    }
    hide Split, Denotes, IsToken, Free, GoodSizes, HeadPlan, HeadText;
    var tokens := SplitOfHead(compression, token, size, third, plan.byteShuffled);
    HeadOfParts(tokens, token, size, third, plan, serialized, expected, limits, item);
  }

  /** The texts spell this plan, and its numbers agree with the block and keep to the limits. */
  ghost predicate Spells(
    compression: string, subblocks: string, serialized: U64, expected: Option<U64>, limits: PlanLimits, item: U64, plan: CompressionPlan)
  {
    && serialized <= limits.maxSerialized
    && if compression == "" then
         && subblocks == "" && (expected.Some? ==> serialized == expected.value) && serialized <= limits.maxDecoded
         && plan == CompressionPlan(NoCodec, false, serialized, 1, [])
       else
         && SpellsHead(compression, plan) && GoodSizes(plan, serialized, expected, limits, item)
         && GoodPieces(subblocks, plan, serialized, limits)
  }

  /** The reader takes these attribute texts for a block as this plan if and only if they spell it. */
  lemma PlanIsExact(
    compression: string, subblocks: string, serialized: U64, expected: Option<U64>, limits: PlanLimits, item: U64, plan: CompressionPlan)
    ensures PlanOf(compression, subblocks, serialized, expected, limits, item) == Ok(plan)
       <==> Spells(compression, subblocks, serialized, expected, limits, item, plan)
  {
    if compression != "" && serialized <= limits.maxSerialized {
      CompressedIsExact(compression, subblocks, serialized, expected, limits, item, plan);
    }
    hide PlanOf, SpellsHead, GoodSizes, GoodPieces;
    if compression == "" || serialized > limits.maxSerialized {
      PlainIsExact(compression, subblocks, serialized, expected, limits, item, plan);
    }
  }

  lemma PlainIsExact(
    compression: string, subblocks: string, serialized: U64, expected: Option<U64>, limits: PlanLimits, item: U64, plan: CompressionPlan)
    requires compression == "" || serialized > limits.maxSerialized
    ensures PlanOf(compression, subblocks, serialized, expected, limits, item) == Ok(plan)
       <==> Spells(compression, subblocks, serialized, expected, limits, item, plan)
  {
    hide HeadPlan, PairsOf, SpellsHead, GoodSizes, GoodPieces;
  }

  lemma CompressedIsExact(
    compression: string, subblocks: string, serialized: U64, expected: Option<U64>, limits: PlanLimits, item: U64, plan: CompressionPlan)
    requires compression != "" && serialized <= limits.maxSerialized
    ensures PlanOf(compression, subblocks, serialized, expected, limits, item) == Ok(plan)
       <==> SpellsHead(compression, plan) && GoodSizes(plan, serialized, expected, limits, item)
            && GoodPieces(subblocks, plan, serialized, limits)
  {
    var head := plan.(subblocks := []);
    HeadIsExact(compression, serialized, expected, limits, item, head);
    SameHead(compression, plan);
    assert GoodSizes(head, serialized, expected, limits, item) <==> GoodSizes(plan, serialized, expected, limits, item);
    HeadIsBare(Split(compression, ':', 0), serialized, expected, limits, item);
    hide HeadPlan, MoreThanThree, Split, SpellsHead, GoodSizes, PairsOf, SpellsPairs, TotalCompressed, TotalUncompressed, AllPositive;
    if subblocks != "" {
      PairsAreExact(subblocks, limits.maxSubblocks, plan.subblocks, serialized, plan.uncompressedSize);
    }
  }

  lemma HeadIsBare(tokens: Parts, serialized: U64, expected: Option<U64>, limits: PlanLimits, item: U64)
    ensures var r := HeadPlan(tokens, serialized, expected, limits, item);
            r.Ok? ==> r.value.subblocks == []
  {
    hide CodecOf, ParseUnsigned, CheckedMultiply;
  }

  lemma SameHead(text: string, plan: CompressionPlan)
    ensures SpellsHead(text, plan.(subblocks := [])) <==> SpellsHead(text, plan)
  {
    hide HeadText, IsToken, Denotes;
  }

  lemma PairsAreExact(text: string, room: int, list: seq<Subblock>, serialized: U64, size: U64)
    requires text != ""
    ensures (PairsOf(text, 0, room, 0, 0) == Ok(list) && TotalCompressed(list) == serialized && TotalUncompressed(list) == size)
       <==> SpellsPairs(text, list) && AllPositive(list) && |list| <= room
            && TotalCompressed(list) == serialized && TotalUncompressed(list) == size
  {
    assert text[0..] == text;
    if PairsOf(text, 0, room, 0, 0) == Ok(list) {
      PairsSpell(text, 0, room, 0, 0, list);
    }
    if SpellsPairs(text, list) && AllPositive(list) && |list| <= room && TotalCompressed(list) == serialized && TotalUncompressed(list) == size {
      SpelledPairs(text, 0, room, 0, 0, list);
    }
  }
}
