/**
 The reader's defence of a file's payload: attached blocks may not leave it or overlap, and every
 byte outside them must be zero, within a budget for looking.
 */
module Ranges {
  import opened Base
  import opened Source

  datatype AttachedRange = AttachedRange(offset: U64, size: U64)

  predicate Holds(range: AttachedRange, x: int) {
    range.offset <= x < range.offset + range.size
  }

  predicate Covered(ranges: seq<AttachedRange>, x: int) {
    exists i :: 0 <= i < |ranges| && Holds(ranges[i], x)
  }

  predicate InPayload(range: AttachedRange, headerEnd: int, fileSize: int) {
    0 < range.size && headerEnd <= range.offset && range.offset + range.size <= fileSize
  }

  predicate Apart(a: AttachedRange, b: AttachedRange) {
    a.offset + a.size <= b.offset || b.offset + b.size <= a.offset
  }

  predicate PairwiseApart(ranges: seq<AttachedRange>) {
    forall i, j | 0 <= i < j < |ranges| :: Apart(ranges[i], ranges[j])
  }

  predicate Acceptable(ranges: seq<AttachedRange>, headerEnd: int, fileSize: int) {
    && (forall i | 0 <= i < |ranges| :: InPayload(ranges[i], headerEnd, fileSize))
    && PairwiseApart(ranges)
  }

  /** The payload bytes outside every block. */
  function Uncovered(ranges: seq<AttachedRange>, from: int, fileSize: int): set<int> {
    set x | from <= x < fileSize && !Covered(ranges, x)
  }

  // ---------------------------------------------------------------- sorting does not matter

  predicate Sorted(ranges: seq<AttachedRange>) {
    forall i, j | 0 <= i < j < |ranges| :: ranges[i].offset <= ranges[j].offset
  }

  lemma SameRanges(a: seq<AttachedRange>, b: seq<AttachedRange>, r: AttachedRange)
    requires multiset(a) == multiset(b)
    ensures r in a <==> r in b
  {
    assert r in a <==> r in multiset(a);
    assert r in b <==> r in multiset(b);
  }

  lemma {:induction false} TwoPlaces(ranges: seq<AttachedRange>, r: AttachedRange) returns (i: int, j: int)
    requires multiset(ranges)[r] >= 2
    ensures 0 <= i < j < |ranges| && ranges[i] == r && ranges[j] == r
    decreases |ranges|
  {
    var last := |ranges| - 1;
    assert ranges == ranges[..last] + [ranges[last]];
    if ranges[last] == r {
      assert r in multiset(ranges[..last]);
      assert r in ranges[..last];
      i :| 0 <= i < last && ranges[i] == r;
      j := last;
    } else {
      i, j := TwoPlaces(ranges[..last], r);
    }
  }

  lemma TwiceMeansTwo(ranges: seq<AttachedRange>, i: int, j: int)
    requires 0 <= i < j < |ranges| && ranges[i] == ranges[j]
    ensures multiset(ranges)[ranges[i]] >= 2
  {
    var front := ranges[..j];
    assert ranges == front + [ranges[j]] + ranges[j + 1..];
    assert ranges[i] in front;
  }

  /** Acceptability speaks of the ranges as a bag, so any sort of them may be checked instead. */
  lemma AcceptableIsOrderFree(a: seq<AttachedRange>, b: seq<AttachedRange>, headerEnd: int, fileSize: int)
    requires multiset(a) == multiset(b) && Acceptable(a, headerEnd, fileSize)
    ensures Acceptable(b, headerEnd, fileSize)
  {
    forall i | 0 <= i < |b|
      ensures InPayload(b[i], headerEnd, fileSize)
    {
      SameRanges(a, b, b[i]);
    }
    forall i, j | 0 <= i < j < |b|
      ensures Apart(b[i], b[j])
    {
      SameRanges(a, b, b[i]);
      SameRanges(a, b, b[j]);
      if b[i] == b[j] {
        TwiceMeansTwo(b, i, j);
        var p, q := TwoPlaces(a, b[i]);
        assert Apart(a[p], a[q]);
      } else {
        var p :| 0 <= p < |a| && a[p] == b[i];
        var q :| 0 <= q < |a| && a[q] == b[j];
        assert if p < q then Apart(a[p], a[q]) else Apart(a[q], a[p]);
      }
    }
  }

  lemma UncoveredIsOrderFree(a: seq<AttachedRange>, b: seq<AttachedRange>, from: int, fileSize: int)
    requires multiset(a) == multiset(b)
    ensures Uncovered(a, from, fileSize) == Uncovered(b, from, fileSize)
  {
    forall x
      ensures Covered(a, x) <==> Covered(b, x)
    {
      CoveredByMember(a, b, x);
      CoveredByMember(b, a, x);
    }
  }

  lemma CoveredByMember(a: seq<AttachedRange>, b: seq<AttachedRange>, x: int)
    requires multiset(a) == multiset(b)
    ensures Covered(a, x) ==> Covered(b, x)
  {
    if Covered(a, x) {
      var i :| 0 <= i < |a| && Holds(a[i], x);
      SameRanges(a, b, a[i]);
      var j :| 0 <= j < |b| && b[j] == a[i];
      assert Holds(b[j], x);
    }
  }

  /** `std::sort` by offset, which may order equal offsets as it likes; here, an insertion sort. */
  method SortByOffset(ranges: seq<AttachedRange>) returns (sorted: seq<AttachedRange>)
    ensures multiset(sorted) == multiset(ranges) && Sorted(sorted)
  {
    hide Sorted, Insert;
    sorted := [];
    NothingIsSorted();
    var n := 0;
    while n < |ranges|
      invariant 0 <= n <= |ranges|
      invariant multiset(sorted) == multiset(ranges[..n]) && Sorted(sorted)
    {
      var k := |sorted|;
      while k > 0 && ranges[n].offset < sorted[k - 1].offset
        invariant 0 <= k <= |sorted|
        invariant forall j | k <= j < |sorted| :: ranges[n].offset < sorted[j].offset
      {
        k := k - 1;
      }
      assert ranges[..n + 1] == ranges[..n] + [ranges[n]];
      InsertKeepsOrder(sorted, k, ranges[n]);
      InsertAddsOne(sorted, k, ranges[n]);
      sorted := Insert(sorted, k, ranges[n]);
      n := n + 1;
    }
    assert ranges[..n] == ranges;
  }

  lemma NothingIsSorted()
    ensures Sorted([])
  {
  }

  function Insert(sorted: seq<AttachedRange>, k: int, range: AttachedRange): seq<AttachedRange>
    requires 0 <= k <= |sorted|
  {
    sorted[..k] + [range] + sorted[k..]
  }

  lemma InsertKeepsOrder(sorted: seq<AttachedRange>, k: int, range: AttachedRange)
    requires 0 <= k <= |sorted| && Sorted(sorted)
    requires k > 0 ==> sorted[k - 1].offset <= range.offset
    requires forall j | k <= j < |sorted| :: range.offset < sorted[j].offset
    ensures Sorted(Insert(sorted, k, range))
  {
    var r := Insert(sorted, k, range);
    forall i, j | 0 <= i < j < |r|
      ensures r[i].offset <= r[j].offset
    {
      assert r[i] == if i < k then sorted[i] else if i == k then range else sorted[i - 1];
      assert r[j] == if j < k then sorted[j] else if j == k then range else sorted[j - 1];
      if k > 0 && i < k - 1 {
        assert sorted[i].offset <= sorted[k - 1].offset;
      }
    }
  }

  lemma InsertAddsOne(sorted: seq<AttachedRange>, k: int, range: AttachedRange)
    requires 0 <= k <= |sorted|
    ensures multiset(Insert(sorted, k, range)) == multiset(sorted) + multiset{range}
  {
    assert sorted == sorted[..k] + sorted[k..];
  }

  // ---------------------------------------------------------------- the range check

  /** The range check of `parse_header`, after sorting. */
  method CheckRanges(ranges: seq<AttachedRange>, headerEnd: U64, fileSize: U64) returns (ok: bool)
    requires Sorted(ranges)
    ensures ok <==> Acceptable(ranges, headerEnd, fileSize)
  {
    var previousEnd := headerEnd;
    var i := 0;
    while i < |ranges|
      invariant 0 <= i <= |ranges|
      invariant previousEnd == if i == 0 then headerEnd else ranges[i - 1].offset + ranges[i - 1].size
      invariant forall k | 0 <= k < i :: InPayload(ranges[k], headerEnd, fileSize) && ranges[k].offset + ranges[k].size <= previousEnd
      invariant forall k, j | 0 <= k < j < i :: Apart(ranges[k], ranges[j])
    {
      var range := ranges[i];
      if range.size == 0 || range.offset < headerEnd || range.offset > fileSize || range.size > fileSize - range.offset {
        assert !InPayload(ranges[i], headerEnd, fileSize);
        return false;
      }
      if range.offset < previousEnd {
        assert i > 0 && !Apart(ranges[i - 1], ranges[i]);
        return false;
      }
      previousEnd := range.offset + range.size;
      i := i + 1;
    }
    return true;
  }

  // ---------------------------------------------------------------- the gap check

  predicate Inside(a: int, x: int, b: int) {
    a <= x < b
  }

  function Interval(a: int, b: int): set<int> {
    set x | a <= x < b && Inside(a, x, b)
  }

  lemma {:induction false} IntervalSize(a: int, b: int)
    requires a <= b
    ensures |Interval(a, b)| == b - a
    decreases b - a
  {
    if a < b {
      IntervalSize(a, b - 1);
      assert Interval(a, b) == Interval(a, b - 1) + {b - 1};
    } else {
      assert Interval(a, b) == {};
    }
  }

  ghost predicate ZeroOn(content: Bytes, places: set<int>) {
    forall x | x in places :: 0 <= x < |content| ==> content[x] == 0
  }

  /** Past the first range, what is uncovered is the gap before it and what the others leave. */
  lemma UncoveredSplits(ranges: seq<AttachedRange>, i: int, cursor: int, fileSize: int)
    requires 0 <= i < |ranges| && Sorted(ranges) && cursor <= ranges[i].offset
    requires Acceptable(ranges, 0, fileSize)
    ensures var next := ranges[i].offset + ranges[i].size;
            var gap, rest := Interval(cursor, ranges[i].offset), Uncovered(ranges[i + 1..], next, fileSize);
            Uncovered(ranges[i..], cursor, fileSize) == gap + rest && gap !! rest
  {
    var next := ranges[i].offset + ranges[i].size;
    assert InPayload(ranges[i], 0, fileSize);
    forall x | cursor <= x < fileSize
      ensures Covered(ranges[i..], x) <==> Holds(ranges[i], x) || Covered(ranges[i + 1..], x)
      ensures x < next ==> !Covered(ranges[i + 1..], x)
    {
      CoveredSplits(ranges, i, x);
      var tail := ranges[i + 1..];
      forall k | 0 <= k < |tail|
        ensures next <= tail[k].offset
      {
        assert Apart(ranges[i], ranges[i + 1 + k]) && InPayload(ranges[i + 1 + k], 0, fileSize);
        assert ranges[i].offset <= ranges[i + 1 + k].offset;
      }
    }
  }

  lemma CoveredSplits(ranges: seq<AttachedRange>, i: int, x: int)
    requires 0 <= i < |ranges|
    ensures Covered(ranges[i..], x) <==> Holds(ranges[i], x) || Covered(ranges[i + 1..], x)
  {
    if Covered(ranges[i..], x) {
      var k :| 0 <= k < |ranges[i..]| && Holds(ranges[i..][k], x);
      if k > 0 {
        assert Holds(ranges[i + 1..][k - 1], x);
      }
    }
    if Covered(ranges[i + 1..], x) {
      var k :| 0 <= k < |ranges[i + 1..]| && Holds(ranges[i + 1..][k], x);
      assert Holds(ranges[i..][k + 1], x);
    }
    if Holds(ranges[i], x) {
      assert Holds(ranges[i..][0], x);
    }
  }

  const GAP_CHUNK := 65536

  /** `validate_gap`: spends budget first, then looks at every byte of the gap in bounded chunks. */
  method ValidateGap(
    source: ByteSource, buffer: array<Byte>, offset: U64, size: U64, validated: U64, budget: U64, ghost content: Bytes)
    returns (r: Result<U64>)
    requires buffer.Length == GAP_CHUNK && offset + size <= |content| <= MAX_U64 && validated <= budget
    modifies source, buffer
    ensures r.Ok? ==> r.value == validated + size <= budget
    ensures Serves(source, content) ==>
              (r.Ok? <==> validated + size <= budget && ZeroOn(content, Interval(offset, offset + size)))
  {
    hide Serves;
    if size > budget - Min(validated, budget) {
      return Err(ResourceLimit);
    }
    ghost var faithful := Serves(source, content);
    var checked: U64 := 0;
    while checked < size
      invariant 0 <= checked <= size
      invariant faithful ==> ZeroOn(content, Interval(offset, offset + checked))
    {
      var chunk := Min(GAP_CHUNK, size - checked);
      var read :- ReadExact(source, offset + checked, buffer, chunk, content);
      var zero := AllZero(buffer, chunk);
      if faithful {
        GapChunk(content, offset, checked, chunk, buffer[..chunk]);
      }
      if !zero {
        ZeroOnPart(content, offset, checked + chunk, size);
        return Err(InvalidBlock);
      }
      checked := checked + chunk;
    }
    return Ok(validated + size);
  }

  method AllZero(buffer: array<Byte>, count: int) returns (zero: bool)
    requires 0 <= count <= buffer.Length
    ensures zero <==> forall k | 0 <= k < count :: buffer[..count][k] == 0
  {
    var i := 0;
    while i < count
      invariant 0 <= i <= count
      invariant forall k | 0 <= k < i :: buffer[..count][k] == 0
    {
      if buffer[i] != 0 {
        assert buffer[..count][i] != 0;
        return false;
      }
      i := i + 1;
    }
    return true;
  }

  lemma GapChunk(content: Bytes, offset: int, checked: int, chunk: int, bytes: Bytes)
    requires 0 <= offset && 0 <= checked && 0 <= chunk && offset + checked + chunk <= |content|
    requires bytes == content[offset + checked..offset + checked + chunk]
    requires ZeroOn(content, Interval(offset, offset + checked))
    ensures ZeroOn(content, Interval(offset, offset + checked + chunk)) <==> forall k | 0 <= k < chunk :: bytes[k] == 0
  {
    if ZeroOn(content, Interval(offset, offset + checked + chunk)) {
      forall k | 0 <= k < chunk
        ensures bytes[k] == 0
      {
        assert Inside(offset, offset + checked + k, offset + checked + chunk);
        assert content[offset + checked + k] == 0;
      }
    } else {
      var x :| x in Interval(offset, offset + checked + chunk) && 0 <= x < |content| && content[x] != 0;
      assert x >= offset + checked by {
        assert x in Interval(offset, offset + checked) <==> Inside(offset, x, offset + checked);
      }
      assert bytes[x - offset - checked] != 0;
    }
  }

  lemma ZeroOnPart(content: Bytes, offset: int, part: int, size: int)
    requires part <= size
    ensures ZeroOn(content, Interval(offset, offset + size)) ==> ZeroOn(content, Interval(offset, offset + part))
  {
    var some, all := Interval(offset, offset + part), Interval(offset, offset + size);
    forall x | x in some
      ensures x in all
    {
      assert Inside(offset, x, offset + size);
    }
  }

  /** What the gap loop knows before range `i`: `seen` is the unused space it has been through. */
  ghost predicate GapState(ranges: seq<AttachedRange>, i: int, headerEnd: int, cursor: int, size: int, validated: int, seen: set<int>)
    requires 0 <= i <= |ranges|
  {
    var rest := Uncovered(ranges[i..], cursor, size);
    && Uncovered(ranges, headerEnd, size) == seen + rest && seen !! rest
    && |seen| == validated
    && headerEnd <= cursor <= size
    && forall k | i <= k < |ranges| :: cursor <= ranges[k].offset
  }

  lemma GapStateAdvances(ranges: seq<AttachedRange>, i: int, headerEnd: int, cursor: int, size: int, validated: int, seen: set<int>)
    requires 0 <= i < |ranges| && Sorted(ranges) && 0 <= headerEnd && Acceptable(ranges, headerEnd, size)
    requires GapState(ranges, i, headerEnd, cursor, size, validated, seen)
    ensures var gap := Interval(cursor, ranges[i].offset);
            && cursor <= ranges[i].offset
            && seen !! gap && |gap| == ranges[i].offset - cursor && |seen + gap| == validated + |gap|
            && seen + gap <= Uncovered(ranges, headerEnd, size)
            && GapState(ranges, i + 1, headerEnd, ranges[i].offset + ranges[i].size, size, validated + |gap|, seen + gap)
  {
    var gap := Interval(cursor, ranges[i].offset);
    assert Acceptable(ranges, 0, size) && InPayload(ranges[i], headerEnd, size) by {
      forall k | 0 <= k < |ranges|
        ensures InPayload(ranges[k], 0, size)
      {
        assert InPayload(ranges[k], headerEnd, size);
      }
    }
    UncoveredSplits(ranges, i, cursor, size);
    IntervalSize(cursor, ranges[i].offset);
    DisjointSizes(seen, gap);
    forall k | i + 1 <= k < |ranges|
      ensures ranges[i].offset + ranges[i].size <= ranges[k].offset
    {
      assert Apart(ranges[i], ranges[k]) && InPayload(ranges[k], headerEnd, size);
      assert ranges[i].offset <= ranges[k].offset;
    }
  }

  lemma DisjointSizes(a: set<int>, b: set<int>)
    requires a !! b
    ensures |a + b| == |a| + |b|
  {
  }

  lemma SubsetSize(a: set<int>, b: set<int>)
    requires a <= b
    ensures |a| <= |b|
  {
    assert b == a + (b - a);
    DisjointSizes(a, b - a);
  }

  ghost predicate UnusedIsFine(ranges: seq<AttachedRange>, headerEnd: int, content: Bytes, budget: int) {
    var unused := Uncovered(ranges, headerEnd, |content|);
    |unused| <= budget && ZeroOn(content, unused)
  }

  /** A gap that is refused refuses the whole file; a gap that passes joins what was seen. */
  lemma GapDecides(seen: set<int>, gap: set<int>, unused: set<int>, content: Bytes, budget: int)
    requires seen + gap <= unused && seen !! gap && ZeroOn(content, seen)
    ensures |unused| <= budget && ZeroOn(content, unused) ==> |seen| + |gap| <= budget && ZeroOn(content, gap)
    ensures ZeroOn(content, gap) ==> ZeroOn(content, seen + gap)
  {
    DisjointSizes(seen, gap);
    SubsetSize(seen + gap, unused);
  }

  /** `validate_unused_spaces`: the gaps between sorted blocks, and the one after the last. */
  method ValidateUnusedSpaces(
    source: ByteSource, headerEnd: U64, size: U64, ranges: seq<AttachedRange>, budget: U64, ghost content: Bytes)
    returns (r: Result<bool>)
    requires Sorted(ranges) && headerEnd <= size == |content| && Acceptable(ranges, headerEnd, size)
    modifies source
    ensures Serves(source, content) ==> (r.Ok? <==> UnusedIsFine(ranges, headerEnd, content, budget))
  {
    hide Serves, Sorted, Acceptable, Uncovered, ZeroOn, GapState, Interval;
    var buffer := new Byte[GAP_CHUNK](_ => 0);
    var validated: U64, cursor: U64 := 0, headerEnd;
    ghost var faithful := Serves(source, content);
    ghost var unused := Uncovered(ranges, headerEnd, size);
    ghost var seen: set<int> := {};
    var i := 0;
    GapStateStarts(ranges, headerEnd, size, content);
    while i < |ranges|
      invariant 0 <= i <= |ranges| && validated <= budget
      invariant GapState(ranges, i, headerEnd, cursor, size, validated, seen)
      invariant faithful ==> ZeroOn(content, seen)
    {
      GapStateAdvances(ranges, i, headerEnd, cursor, size, validated, seen);
      ghost var gap := Interval(cursor, ranges[i].offset);
      if faithful {
        GapDecides(seen, gap, unused, content, budget);
      }
      if ranges[i].offset > cursor {
        validated :- ValidateGap(source, buffer, cursor, ranges[i].offset - cursor, validated, budget, content);
      } else {
        EmptyGap(content, cursor);
      }
      cursor := ranges[i].offset + ranges[i].size;
      seen := seen + gap;
      i := i + 1;
    }
    ghost var gap := Interval(cursor, size);
    GapStateEnds(ranges, headerEnd, cursor, size, validated, seen);
    if faithful {
      GapDecides(seen, gap, unused, content, budget);
    }
    if cursor < size {
      validated :- ValidateGap(source, buffer, cursor, size - cursor, validated, budget, content);
    } else {
      EmptyGap(content, cursor);
    }
    return Ok(true);
  }

  lemma GapStateStarts(ranges: seq<AttachedRange>, headerEnd: int, size: int, content: Bytes)
    requires 0 <= headerEnd <= size && Acceptable(ranges, headerEnd, size)
    ensures GapState(ranges, 0, headerEnd, headerEnd, size, 0, {})
    ensures ZeroOn(content, {})
  {
    assert ranges[0..] == ranges;
    forall k | 0 <= k < |ranges|
      ensures headerEnd <= ranges[k].offset
    {
      assert InPayload(ranges[k], headerEnd, size);
    }
  }

  lemma GapStateEnds(ranges: seq<AttachedRange>, headerEnd: int, cursor: int, size: int, validated: int, seen: set<int>)
    requires GapState(ranges, |ranges|, headerEnd, cursor, size, validated, seen)
    ensures cursor <= size && |seen| == validated
    ensures var gap := Interval(cursor, size);
            seen !! gap && seen + gap == Uncovered(ranges, headerEnd, size) && |gap| == size - cursor
  {
    assert ranges[|ranges|..] == [];
    IntervalSize(cursor, size);
    NothingCovers(cursor, size);
  }

  lemma EmptyGap(content: Bytes, a: int)
    ensures Interval(a, a) == {} && ZeroOn(content, {})
  {
  }

  /** Everything the reader asks of the payload when it opens a file. */
  method CheckPayload(
    source: ByteSource, headerEnd: U64, size: U64, ranges: seq<AttachedRange>, budget: U64, ghost content: Bytes)
    returns (r: Result<bool>)
    requires headerEnd <= size == |content|
    modifies source
    ensures !Acceptable(ranges, headerEnd, size) ==> r == Err(InvalidBlock)
    ensures Serves(source, content) ==>
              (r.Ok? <==> Acceptable(ranges, headerEnd, size) && UnusedIsFine(ranges, headerEnd, content, budget))
  {
    hide Serves, Sorted, Acceptable, Uncovered, ZeroOn;
    var sorted := SortByOffset(ranges);
    var ok := CheckRanges(sorted, headerEnd, size);
    if !ok {
      if Acceptable(ranges, headerEnd, size) {
        AcceptableIsOrderFree(ranges, sorted, headerEnd, size);
      }
      return Err(InvalidBlock);
    }
    AcceptableIsOrderFree(sorted, ranges, headerEnd, size);
    UncoveredIsOrderFree(sorted, ranges, headerEnd, size);
    r := ValidateUnusedSpaces(source, headerEnd, size, sorted, budget, content);
  }

  function TotalSize(ranges: seq<AttachedRange>): (n: int)
    ensures 0 <= n
  {
    if ranges == [] then 0 else ranges[0].size + TotalSize(ranges[1..])
  }

  /** The unused space of an acceptable file is its payload less its blocks. */
  lemma {:induction false} UnusedTotal(ranges: seq<AttachedRange>, i: int, cursor: int, size: int)
    requires 0 <= i <= |ranges| && Sorted(ranges) && Acceptable(ranges, 0, size) && cursor <= size
    requires forall k | i <= k < |ranges| :: cursor <= ranges[k].offset
    ensures |Uncovered(ranges[i..], cursor, size)| == size - cursor - TotalSize(ranges[i..])
    decreases |ranges| - i
  {
    if i < |ranges| {
      var next := ranges[i].offset + ranges[i].size;
      var gap, rest := Interval(cursor, ranges[i].offset), Uncovered(ranges[i + 1..], next, size);
      assert InPayload(ranges[i], 0, size);
      UncoveredSplits(ranges, i, cursor, size);
      forall k | i + 1 <= k < |ranges|
        ensures next <= ranges[k].offset
      {
        assert Apart(ranges[i], ranges[k]) && InPayload(ranges[k], 0, size) && ranges[i].offset <= ranges[k].offset;
      }
      UnusedTotal(ranges, i + 1, next, size);
      IntervalSize(cursor, ranges[i].offset);
      DisjointSizes(gap, rest);
      assert ranges[i..][1..] == ranges[i + 1..];
    } else {
      NothingCovers(cursor, size);
      IntervalSize(cursor, size);
      assert ranges[i..] == [];
    }
  }

  lemma NothingCovers(cursor: int, size: int)
    ensures Uncovered([], cursor, size) == Interval(cursor, size)
  {
    forall x
      ensures x in Uncovered([], cursor, size) <==> x in Interval(cursor, size)
    {
      assert !Covered([], x);
      assert Inside(cursor, x, size) <==> cursor <= x < size;
    }
  }
}
