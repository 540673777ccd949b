/** The `compression` and `subblocks` attribute texts: how the writer prints them, how the reader parses them. */
module Descriptors {
  import opened Base
  import opened Text

  datatype CodecKind = NoCodec | Zlib | Lz4 | Lz4hc | Zstd

  datatype Subblock = Subblock(compressed: U64, uncompressed: U64)

  datatype CompressionPlan = CompressionPlan(
    kind: CodecKind,
    byteShuffled: bool,
    uncompressedSize: U64,
    itemSize: U64,
    subblocks: seq<Subblock>)

  datatype PlanLimits = PlanLimits(maxSerialized: U64, maxDecoded: U64, maxRatio: U64, maxSubblocks: U64)

  function CodecName(kind: CodecKind): string {
    match kind
    case NoCodec => ""
    case Zlib => "zlib"
    case Lz4 => "lz4"
    case Lz4hc => "lz4hc"
    case Zstd => "zstd"
  }

  function CodecOf(token: string): Option<(CodecKind, bool)> {
    if token == "zlib" then Some((Zlib, false))
    else if token == "zlib+sh" then Some((Zlib, true))
    else if token == "lz4" then Some((Lz4, false))
    else if token == "lz4+sh" then Some((Lz4, true))
    else if token == "lz4hc" then Some((Lz4hc, false))
    else if token == "lz4hc+sh" then Some((Lz4hc, true))
    else if token == "zstd" then Some((Zstd, false))
    else if token == "zstd+sh" then Some((Zstd, true))
    else None
  }

  function TotalCompressed(list: seq<Subblock>): (n: int)
    ensures 0 <= n
  {
    if list == [] then 0 else list[0].compressed + TotalCompressed(list[1..])
  }

  function TotalUncompressed(list: seq<Subblock>): (n: int)
    ensures 0 <= n
  {
    if list == [] then 0 else list[0].uncompressed + TotalUncompressed(list[1..])
  }

  // ---------------------------------------------------------------- writer

  function CodecToken(kind: CodecKind, shuffled: bool): string {
    CodecName(kind) + if shuffled then "+sh" else ""
  }

  function PrintCompression(plan: CompressionPlan): string {
    CodecToken(plan.kind, plan.byteShuffled)
    + (":" + (ToDecimal(plan.uncompressedSize) + if plan.byteShuffled then ":" + ToDecimal(plan.itemSize) else ""))
  }

  function PrintPair(pair: Subblock): (text: string)
    ensures text != ""
  {
    ToDecimal(pair.compressed) + ("," + ToDecimal(pair.uncompressed))
  }

  function PrintPairs(list: seq<Subblock>): string
    requires list != []
  {
    PrintPair(list[0]) + if |list| == 1 then "" else ":" + PrintPairs(list[1..])
  }

  /** A block of one piece declares no subblocks. */
  function PrintSubblocks(list: seq<Subblock>): string {
    if |list| > 1 then PrintPairs(list) else ""
  }

  // ---------------------------------------------------------------- reader

  function RawPlan(subblocks: string, serialized: U64, expected: Option<U64>, limits: PlanLimits): Result<CompressionPlan> {
    if subblocks != "" then Err(InvalidBlock)
    else if expected.Some? && serialized != expected.value then Err(InvalidBlock)
    else if serialized > limits.maxDecoded then Err(ResourceLimit)
    else Ok(CompressionPlan(NoCodec, false, serialized, 1, []))
  }

  predicate MoreThanThree(tokens: Parts) {
    tokens.Part? && tokens.rest.Part? && tokens.rest.rest.Part?
  }

  function HeadPlan(tokens: Parts, serialized: U64, expected: Option<U64>, limits: PlanLimits, item: U64): Result<CompressionPlan> {
    if CodecOf(tokens.text).None? then Err(UnsupportedFeature) else
    var (kind, shuffled) := CodecOf(tokens.text).value;
    if tokens.Last? || (if shuffled then tokens.rest.Last? || tokens.rest.rest.Part? else tokens.rest.Part?)
       || ParseUnsigned(tokens.rest.text).GetOr(0) == 0
    then Err(InvalidBlock) else
    var size := ParseUnsigned(tokens.rest.text).value;
    if expected.Some? && size != expected.value then Err(InvalidBlock)
    else if shuffled && (ParseUnsigned(tokens.rest.rest.text).GetOr(0) == 0 || ParseUnsigned(tokens.rest.rest.text).value != item)
    then Err(InvalidBlock)
    else if serialized == 0 then Err(InvalidBlock)
    else if size > CheckedMultiply(serialized, limits.maxRatio).GetOr(MAX_U64) then Err(ResourceLimit)
    else if size > limits.maxDecoded then Err(ResourceLimit)
    else Ok(CompressionPlan(kind, shuffled, size, if shuffled then item else 1, []))
  }

  function PairOf(part: string): (pair: Option<Subblock>)
    ensures pair.Some? ==> pair.value.compressed > 0 && pair.value.uncompressed > 0
  {
    var comma := Find(part, ',', 0);
    if comma == |part| || Find(part, ',', comma + 1) < |part| then None
    else
      match (ParseUnsigned(part[..comma]), ParseUnsigned(part[comma + 1..]))
      case (Some(c), Some(u)) => if c == 0 || u == 0 then None else Some(Subblock(c, u))
      case _ => None
  }

  /** Reads the pairs of text[start..] while counting them and summing both columns from `c` and `u` on. */
  function PairsOf(text: string, start: int, room: int, c: U64, u: U64): Result<seq<Subblock>>
    requires 0 <= start <= |text|
    decreases |text| - start
  {
    if room <= 0 then Err(ResourceLimit) else
    var end := Find(text, ':', start);
    var pair := PairOf(text[start..end]);
    if pair.None? then Err(InvalidBlock) else
    var c', u' := CheckedAdd(c, pair.value.compressed), CheckedAdd(u, pair.value.uncompressed);
    if c'.None? || u'.None? then Err(Overflow)
    else if end == |text| then Ok([pair.value])
    else
      var rest :- PairsOf(text, end + 1, room - 1, c'.value, u'.value);
      Ok([pair.value] + rest)
  }

  /** What the reader makes of a block's attributes. */
  function PlanOf(
    compression: string, subblocks: string, serialized: U64, expected: Option<U64>, limits: PlanLimits, item: U64
  ): Result<CompressionPlan> {
    if serialized > limits.maxSerialized then Err(ResourceLimit)
    else if compression == "" then RawPlan(subblocks, serialized, expected, limits)
    else if MoreThanThree(Split(compression, ':', 0)) then Err(InvalidBlock)
    else
      var plan :- HeadPlan(Split(compression, ':', 0), serialized, expected, limits, item);
      if subblocks == "" then Ok(plan.(subblocks := [Subblock(serialized, plan.uncompressedSize)]))
      else
        var list :- PairsOf(subblocks, 0, limits.maxSubblocks, 0, 0);
        if TotalCompressed(list) != serialized || TotalUncompressed(list) != plan.uncompressedSize then Err(InvalidBlock)
        else Ok(plan.(subblocks := list))
  }

  function Prepend(done: seq<Subblock>, r: Result<seq<Subblock>>): Result<seq<Subblock>> {
    if r.Ok? then Ok(done + r.value) else r
  }

  lemma PrependTwice(list: seq<Subblock>, pair: Subblock, rest: Result<seq<Subblock>>)
    ensures Prepend(list, Prepend([pair], rest)) == Prepend(list + [pair], rest)
  {
    if rest.Ok? {
      assert list + ([pair] + rest.value) == list + [pair] + rest.value;
    }
  }

  lemma PrependNothing(r: Result<seq<Subblock>>)
    ensures Prepend([], r) == r
  {
    if r.Ok? {
      assert [] + r.value == r.value;
    }
  }

  lemma {:induction false} TotalsAppend(list: seq<Subblock>, last: Subblock)
    ensures TotalCompressed(list + [last]) == TotalCompressed(list) + last.compressed
    ensures TotalUncompressed(list + [last]) == TotalUncompressed(list) + last.uncompressed
  {
    if list == [] {
      assert [last][1..] == [];
    } else {
      assert (list + [last])[1..] == list[1..] + [last];
      TotalsAppend(list[1..], last);
    }
  }

  /** The tokenizer's array of three as a list, in front of what is still unread. */
  function Tokens(count: int, first: string, second: string, third: string, unread: Parts): Parts {
    if count == 0 then unread
    else if count == 1 then Part(first, unread)
    else if count == 2 then Part(first, Part(second, unread))
    else Part(first, Part(second, Part(third, unread)))
  }

  method ParseTokens(compression: string) returns (tokens: Parts, tooMany: bool)
    ensures tooMany <==> MoreThanThree(Split(compression, ':', 0))
    ensures !tooMany ==> tokens == Split(compression, ':', 0)
  {
    var first, second, third, count := "", "", "", 0;
    var start := 0;
    while start <= |compression|
      invariant 0 <= start <= |compression| && 0 <= count <= 3
      invariant Split(compression, ':', 0) == Tokens(count, first, second, third, Split(compression, ':', start))
      decreases |compression| - start
    {
      if count == 3 {
        return Last(""), true;
      }
      var end := Find(compression, ':', start);
      var token := compression[start..end];
      if end == |compression| {
        return Tokens(count, first, second, third, Last(token)), false;
      }
      if count == 0 {
        first := token;
      } else if count == 1 {
        second := token;
      } else {
        third := token;
      }
      count := count + 1;
      start := end + 1;
    }
    return Last(""), true;
  }

  method ParsePairs(subblocks: string, maxSubblocks: U64, serialized: U64, uncompressed: U64) returns (r: Result<seq<Subblock>>)
    ensures r == match PairsOf(subblocks, 0, maxSubblocks, 0, 0)
                 case Err(e) => Err(e)
                 case Ok(list) =>
                   if TotalCompressed(list) != serialized || TotalUncompressed(list) != uncompressed then Err(InvalidBlock)
                   else Ok(list)
  {
    hide PairOf;
    ghost var whole := PairsOf(subblocks, 0, maxSubblocks, 0, 0);
    var list: seq<Subblock> := [];
    var totalCompressed: U64, totalUncompressed: U64 := 0, 0;
    var start := 0;
    PrependNothing(whole);
    while start <= |subblocks|
      invariant 0 <= start <= |subblocks|
      invariant totalCompressed == TotalCompressed(list) && totalUncompressed == TotalUncompressed(list)
      invariant whole == Prepend(list, PairsOf(subblocks, start, maxSubblocks - |list|, totalCompressed, totalUncompressed))
      decreases |subblocks| - start
    {
      if |list| >= maxSubblocks {
        return Err(ResourceLimit);
      }
      var end := Find(subblocks, ':', start);
      var pair := PairOf(subblocks[start..end]);
      if pair.None? {
        return Err(InvalidBlock);
      }
      var nextCompressed := CheckedAdd(totalCompressed, pair.value.compressed);
      var nextUncompressed := CheckedAdd(totalUncompressed, pair.value.uncompressed);
      if nextCompressed.None? || nextUncompressed.None? {
        return Err(Overflow);
      }
      TotalsAppend(list, pair.value);
      ghost var was := list;
      totalCompressed, totalUncompressed := nextCompressed.value, nextUncompressed.value;
      list := list + [pair.value];
      if end == |subblocks| {
        break;
      }
      PrependTwice(was, pair.value, PairsOf(subblocks, end + 1, maxSubblocks - |list|, totalCompressed, totalUncompressed));
      start := end + 1;
    }
    if totalCompressed != serialized || totalUncompressed != uncompressed {
      return Err(InvalidBlock);
    }
    return Ok(list);
  }

  lemma {:induction false} PrintPairsAppend(list: seq<Subblock>, last: Subblock)
    requires list != []
    ensures PrintPairs(list + [last]) == PrintPairs(list) + ":" + PrintPair(last)
  {
    hide PrintPair;
    assert (list + [last])[1..] == list[1..] + [last];
    if |list| > 1 {
      PrintPairsAppend(list[1..], last);
    } else {
      assert list[1..] + [last] == [last];
    }
  }

  /** The writer's loop over its subblock list prints `PrintSubblocks`. */
  method FormatSubblocks(list: seq<Subblock>) returns (text: string)
    ensures text == PrintSubblocks(list)
  {
    hide PrintPair;
    text := "";
    if |list| > 1 {
      var i := 0;
      while i < |list|
        invariant 0 <= i <= |list|
        invariant text == if i == 0 then "" else PrintPairs(list[..i])
        invariant text == "" <==> i == 0
      {
        if text != "" {
          PrintPairsAppend(list[..i], list[i]);
          text := text + ":";
        }
        text := text + PrintPair(list[i]);
        assert list[..i + 1] == list[..i] + [list[i]];
        i := i + 1;
      }
      assert list[..i] == list;
    }
  }

  /** The reader's own loops compute `PlanOf`. */
  method ParseCompressionPlan(
    compression: string, subblocks: string, serialized: U64, expected: Option<U64>, limits: PlanLimits, item: U64)
    returns (r: Result<CompressionPlan>)
    ensures r == PlanOf(compression, subblocks, serialized, expected, limits, item)
  {
    if serialized > limits.maxSerialized {
      return Err(ResourceLimit);
    }
    if compression == "" {
      return RawPlan(subblocks, serialized, expected, limits);
    }
    var tokens, tooMany := ParseTokens(compression);
    if tooMany {
      return Err(InvalidBlock);
    }
    var plan :- HeadPlan(tokens, serialized, expected, limits, item);
    if subblocks == "" {
      return Ok(plan.(subblocks := [Subblock(serialized, plan.uncompressedSize)]));
    }
    var list :- ParsePairs(subblocks, limits.maxSubblocks, serialized, plan.uncompressedSize);
    return Ok(plan.(subblocks := list));
  }

  // ---------------------------------------------------------------- what acceptance means

  /** The pieces are real and account for every serialized and every decoded byte. */
  predicate Conserves(plan: CompressionPlan, serialized: U64) {
    && plan.subblocks != []
    && (forall p | p in plan.subblocks :: p.compressed > 0 && p.uncompressed > 0)
    && TotalCompressed(plan.subblocks) == serialized
    && TotalUncompressed(plan.subblocks) == plan.uncompressedSize
  }

  /** The plan describes a compressed block of this size and type. */
  predicate Faithful(plan: CompressionPlan, serialized: U64, expected: Option<U64>, item: U64) {
    && plan.kind != NoCodec
    && Conserves(plan, serialized)
    && (expected.Some? ==> plan.uncompressedSize == expected.value)
    && plan.itemSize == (if plan.byteShuffled then item else 1)
    && plan.itemSize > 0
  }

  predicate WithinLimits(plan: CompressionPlan, serialized: U64, limits: PlanLimits) {
    && serialized <= limits.maxSerialized
    && plan.uncompressedSize <= limits.maxDecoded
    && plan.uncompressedSize <= serialized * limits.maxRatio
    && (|plan.subblocks| > 1 ==> |plan.subblocks| <= limits.maxSubblocks)
  }

  predicate IsRawPlan(plan: CompressionPlan, serialized: U64, expected: Option<U64>, limits: PlanLimits) {
    && plan == CompressionPlan(NoCodec, false, serialized, 1, [])
    && (expected.Some? ==> serialized == expected.value)
    && serialized <= limits.maxSerialized && serialized <= limits.maxDecoded
  }

  lemma {:induction false} PairsArePositive(text: string, start: int, room: int, c: U64, u: U64)
    requires 0 <= start <= |text|
    ensures var r := PairsOf(text, start, room, c, u);
            r.Ok? ==> 0 < |r.value| <= room && forall p | p in r.value :: p.compressed > 0 && p.uncompressed > 0
    decreases |text| - start
  {
    hide PairOf;
    var r := PairsOf(text, start, room, c, u);
    var end := Find(text, ':', start);
    if r.Ok? && end < |text| {
      var pair := PairOf(text[start..end]).value;
      PairsArePositive(text, end + 1, room - 1, c + pair.compressed, u + pair.uncompressed);
    }
  }

  /** Whatever the texts are, an accepted plan fits the block, its declared type and every limit. */
  lemma AcceptedPlansAreConsistent(
    compression: string, subblocks: string, serialized: U64, expected: Option<U64>, limits: PlanLimits, item: U64)
    ensures var r := PlanOf(compression, subblocks, serialized, expected, limits, item);
            r.Ok? ==>
              if compression == "" then IsRawPlan(r.value, serialized, expected, limits)
              else Faithful(r.value, serialized, expected, item) && WithinLimits(r.value, serialized, limits)
  {
    var r := PlanOf(compression, subblocks, serialized, expected, limits, item);
    if r.Ok? && compression != "" {
      CheckedMultiplyExact(serialized, limits.maxRatio);
      if subblocks == "" {
        var only := r.value.subblocks;
        assert only[1..] == [];
      } else {
        PairsArePositive(subblocks, 0, limits.maxSubblocks, 0, 0);
      }
    }
  }

  lemma PairRoundTrip(pair: Subblock)
    requires pair.compressed > 0 && pair.uncompressed > 0
    ensures PairOf(PrintPair(pair)) == Some(pair)
    ensures Free(PrintPair(pair), ':')
  {
    var left, right := ToDecimal(pair.compressed), ToDecimal(pair.uncompressed);
    var text := PrintPair(pair);
    DecimalIsFree(pair.compressed, ',');
    DecimalIsFree(pair.uncompressed, ',');
    DecimalIsFree(pair.compressed, ':');
    DecimalIsFree(pair.uncompressed, ':');
    assert Free(text, ':') by {
      hide ToDecimal, AllDigits;
    }
    CommaSplits(left, right);
  }

  lemma CommaSplits(left: string, right: string)
    requires Free(left, ',') && Free(right, ',')
    ensures var text := left + ("," + right);
            && Find(text, ',', 0) == |left|
            && Find(text, ',', |left| + 1) == |text|
            && text[..|left|] == left && text[|left| + 1..] == right
  {
    hide Find, Free;
    var text := left + ("," + right);
    FindIsFirst("", left, "," + right, ',');
    assert "" + left == left;
    Assoc(left, ",", right);
    FindIsFirst(left + ",", right, "", ',');
    assert text + "" == text;
  }

  lemma PrintPairsUnfold(list: seq<Subblock>)
    requires list != []
    ensures PrintPairs(list) == PrintPair(list[0]) + if |list| == 1 then "" else ":" + PrintPairs(list[1..])
  {
  }

  lemma {:induction false} PairsRoundTrip(front: string, list: seq<Subblock>, room: int, c: U64, u: U64)
    requires list != [] && forall p | p in list :: p.compressed > 0 && p.uncompressed > 0
    requires c + TotalCompressed(list) <= MAX_U64 && u + TotalUncompressed(list) <= MAX_U64
    ensures PairsOf(front + PrintPairs(list), |front|, room, c, u) == if |list| <= room then Ok(list) else Err(ResourceLimit)
    decreases |list|
  {
    hide PairOf, PrintPair, Find, Free, PairsOf, PrintPairs;
    PrintPairsUnfold(list);
    var text, pair := front + PrintPairs(list), list[0];
    assert pair in list;
    PairRoundTrip(pair);
    var rest := if |list| == 1 then "" else ":" + PrintPairs(list[1..]);
    assert text == front + PrintPair(pair) + rest;
    FindIsFirst(front, PrintPair(pair), rest, ':');
    PairsUnfold(text, |front|, |front| + |PrintPair(pair)|, pair, room, c, u);
    if |list| == 1 {
      assert list == [pair];
    } else {
      var front' := front + PrintPair(pair) + ":";
      PairsRoundTrip(front', list[1..], room - 1, c + pair.compressed, u + pair.uncompressed);
      assert front' + PrintPairs(list[1..]) == text;
      assert list == [pair] + list[1..];
    }
  }

  lemma PairsUnfold(text: string, start: int, end: int, pair: Subblock, room: int, c: U64, u: U64)
    requires 0 <= start <= end <= |text| && Find(text, ':', start) == end && PairOf(text[start..end]) == Some(pair)
    requires c + pair.compressed <= MAX_U64 && u + pair.uncompressed <= MAX_U64
    ensures PairsOf(text, start, room, c, u)
         == if room <= 0 then Err(ResourceLimit)
            else if end == |text| then Ok([pair])
            else Prepend([pair], PairsOf(text, end + 1, room - 1, c + pair.compressed, u + pair.uncompressed))
  {
    hide PairOf;
  }

  lemma CodecTokenRoundTrip(kind: CodecKind, shuffled: bool)
    requires kind != NoCodec
    ensures Free(CodecToken(kind, shuffled), ':')
    ensures CodecOf(CodecToken(kind, shuffled)) == Some((kind, shuffled))
  {
    var name := CodecToken(kind, shuffled);
    match kind {
      case Zlib => assert name == if shuffled then "zlib+sh" else "zlib";
      case Lz4 => assert name == if shuffled then "lz4+sh" else "lz4";
      case Lz4hc => assert name == if shuffled then "lz4hc+sh" else "lz4hc";
      case Zstd => assert name == if shuffled then "zstd+sh" else "zstd";
    }
  }

  function PrintedTokens(plan: CompressionPlan): Parts {
    var size := ToDecimal(plan.uncompressedSize);
    Part(CodecToken(plan.kind, plan.byteShuffled),
         if plan.byteShuffled then Part(size, Last(ToDecimal(plan.itemSize))) else Last(size))
  }

  lemma TokensRoundTrip(plan: CompressionPlan)
    requires plan.kind != NoCodec
    ensures PrintCompression(plan) != ""
    ensures Split(PrintCompression(plan), ':', 0) == PrintedTokens(plan)
  {
    var name, size, item := CodecToken(plan.kind, plan.byteShuffled), ToDecimal(plan.uncompressedSize), ToDecimal(plan.itemSize);
    CodecTokenRoundTrip(plan.kind, plan.byteShuffled);
    DecimalIsFree(plan.uncompressedSize, ':');
    DecimalIsFree(plan.itemSize, ':');
    hide ToDecimal, ValueOf, AllDigits, CodecToken, Free;
    var tail := if plan.byteShuffled then Part(size, Last(item)) else Last(size);
    assert Join(tail, ':') == size + if plan.byteShuffled then ":" + item else "";
    assert PartsFree(tail, ':');
    assert PrintedTokens(plan).rest == tail;
    assert Join(PrintedTokens(plan), ':') == PrintCompression(plan);
    SplitOfJoin("", PrintedTokens(plan), ':');
    assert "" + PrintCompression(plan) == PrintCompression(plan);
  }

  /** The reader's parse of the writer's texts returns the very plan that was printed, unless a limit refuses it. */
  lemma DescriptorRoundTrip(plan: CompressionPlan, serialized: U64, expected: Option<U64>, limits: PlanLimits, item: U64)
    requires Faithful(plan, serialized, expected, item)
    ensures PlanOf(PrintCompression(plan), PrintSubblocks(plan.subblocks), serialized, expected, limits, item)
         == if WithinLimits(plan, serialized, limits) then Ok(plan) else Err(ResourceLimit)
  {
    TokensRoundTrip(plan);
    HeadRoundTrip(plan, serialized, expected, limits, item);
    hide HeadPlan, PrintCompression, CodecOf;
    var list := plan.subblocks;
    assert list[0] in list;
    if |list| == 1 {
      OnePiece(list);
      assert plan.(subblocks := [Subblock(serialized, plan.uncompressedSize)]) == plan;
    } else {
      PairsRoundTrip("", list, limits.maxSubblocks, 0, 0);
      assert "" + PrintPairs(list) == PrintPairs(list);
      assert PrintSubblocks(list) != "";
    }
  }

  lemma HeadRoundTrip(plan: CompressionPlan, serialized: U64, expected: Option<U64>, limits: PlanLimits, item: U64)
    requires Faithful(plan, serialized, expected, item)
    ensures HeadPlan(PrintedTokens(plan), serialized, expected, limits, item)
         == if plan.uncompressedSize <= serialized * limits.maxRatio && plan.uncompressedSize <= limits.maxDecoded
            then Ok(plan.(subblocks := []))
            else Err(ResourceLimit)
  {
    CodecTokenRoundTrip(plan.kind, plan.byteShuffled);
    CheckedMultiplyExact(serialized, limits.maxRatio);
    assert plan.subblocks[0] in plan.subblocks;
    hide CodecToken, CodecOf, ToDecimal, ValueOf, AllDigits;
  }

  lemma OnePiece(list: seq<Subblock>)
    requires |list| == 1 && TotalCompressed(list) <= MAX_U64 && TotalUncompressed(list) <= MAX_U64
    ensures list == [Subblock(TotalCompressed(list), TotalUncompressed(list))]
  {
    assert list[1..] == [];
    assert TotalCompressed(list[1..]) == 0;
  }
}
