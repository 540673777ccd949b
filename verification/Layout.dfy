/**
 Where the writer puts its blocks. The header prints the offsets, the offsets depend on the
 header's length, and the header's length depends on how many digits the offsets have.
 */
module Layout {
  import opened Base
  import opened Text
  import opened Locations
  import Mul

  // ---------------------------------------------------------------- alignment

  /** Alignments are powers of two, so the source's bit mask is a remainder. */
  function AlignUp(value: U64, alignment: U64): (r: Result<U64>)
    requires 0 < alignment
  {
    var remainder := value % alignment;
    if remainder == 0 then Ok(value)
    else if CheckedAdd(value, alignment - remainder).None? then Err(Overflow)
    else Ok(value + (alignment - remainder))
  }

  /** The aligned value is the least multiple that is not smaller; it is refused only when it does not fit. */
  lemma AlignUpIsLeast(value: U64, alignment: U64, multiple: int)
    requires 0 < alignment
    ensures AlignUp(value, alignment).Ok? ==>
              && AlignUp(value, alignment).value % alignment == 0
              && value <= AlignUp(value, alignment).value < value + alignment
    ensures value <= multiple && multiple % alignment == 0 && multiple <= MAX_U64 ==>
              AlignUp(value, alignment).Ok? && AlignUp(value, alignment).value <= multiple
  {
    var q, r := value / alignment, value % alignment;
    Mul.Split(value, alignment);
    Mul.DivMod(q + 1, 0, alignment);
    assert (q + 1) * alignment == value - r + alignment;
    if value <= multiple && multiple % alignment == 0 {
      Mul.Split(multiple, alignment);
      if r > 0 && multiple / alignment <= q {
        Mul.Monotone(multiple / alignment, q, alignment);
      } else if r > 0 {
        Mul.Monotone(q + 1, multiple / alignment, alignment);
      }
    }
  }

  lemma AlignUpIsMonotone(a: U64, b: U64, alignment: U64)
    requires 0 < alignment && a <= b && AlignUp(b, alignment).Ok?
    ensures AlignUp(a, alignment).Ok? && AlignUp(a, alignment).value <= AlignUp(b, alignment).value
  {
    AlignUpIsLeast(b, alignment, 0);
    AlignUpIsLeast(a, alignment, AlignUp(b, alignment).value);
  }

  /** Distinct multiples are at least one alignment apart. */
  lemma MultiplesAreSpaced(a: int, b: int, alignment: int)
    requires 0 < alignment && 0 <= a < b && a % alignment == 0 && b % alignment == 0
    ensures a + alignment <= b
  {
    Mul.Split(a, alignment);
    Mul.Split(b, alignment);
    if b / alignment <= a / alignment {
      Mul.Monotone(b / alignment, a / alignment, alignment);
    } else {
      Mul.Monotone(a / alignment + 1, b / alignment, alignment);
    }
  }

  lemma NextMultiple(a: int, alignment: int)
    requires 0 < alignment && 0 <= a && a % alignment == 0
    ensures (a + alignment) % alignment == 0
  {
    Mul.Split(a, alignment);
    Mul.DivMod(a / alignment + 1, 0, alignment);
  }

  // ---------------------------------------------------------------- block placement

  datatype Placement = Placement(offsets: seq<U64>, end: U64)

  /** Blocks in file order from `first` on, each but the first aligned after the end of the one before. */
  function Place(sizes: seq<U64>, first: U64, alignment: U64): (r: Result<Placement>)
    requires sizes != [] && 0 < alignment
    ensures r.Ok? ==> |r.value.offsets| == |sizes|
    decreases |sizes|
  {
    if CheckedAdd(first, sizes[0]).None? then Err(Overflow)
    else if |sizes| == 1 then Ok(Placement([first], first + sizes[0]))
    else
      match AlignUp(first + sizes[0], alignment)
      case Err(e) => Err(e)
      case Ok(next) => PlaceAfter([first], Place(sizes[1..], next, alignment))
  }

  lemma {:induction false} PlaceIsMonotone(sizes: seq<U64>, a: U64, b: U64, alignment: U64)
    requires sizes != [] && 0 < alignment && a <= b && Place(sizes, b, alignment).Ok?
    ensures Place(sizes, a, alignment).Ok?
    ensures var low, high := Place(sizes, a, alignment).value, Place(sizes, b, alignment).value;
            forall i | 0 <= i < |sizes| :: low.offsets[i] <= high.offsets[i]
    decreases |sizes|
  {
    if |sizes| > 1 {
      AlignUpIsMonotone(a + sizes[0], b + sizes[0], alignment);
      PlaceIsMonotone(sizes[1..], AlignUp(a + sizes[0], alignment).value, AlignUp(b + sizes[0], alignment).value, alignment);
    }
  }

  /** Blocks are aligned, in order, clear of each other and closed by the end of the file; gaps are below the alignment. */
  ghost predicate InOrder(sizes: seq<U64>, p: Placement, first: int, alignment: int)
    requires 0 < alignment
  {
    && |p.offsets| == |sizes| > 0
    && p.offsets[0] == first
    && (forall i | 0 <= i < |sizes| :: first <= p.offsets[i] && p.offsets[i] % alignment == 0)
    && (forall i | 0 < i < |sizes| ::
          p.offsets[i - 1] + sizes[i - 1] <= p.offsets[i] < p.offsets[i - 1] + sizes[i - 1] + alignment)
    && p.end == p.offsets[|sizes| - 1] as int + sizes[|sizes| - 1]
  }

  lemma {:induction false} PlacementIsInOrder(sizes: seq<U64>, first: U64, alignment: U64)
    requires sizes != [] && 0 < alignment && first % alignment == 0
    requires Place(sizes, first, alignment).Ok?
    ensures InOrder(sizes, Place(sizes, first, alignment).value, first, alignment)
    decreases |sizes|
  {
    if |sizes| > 1 {
      var next := AlignUp(first + sizes[0], alignment).value;
      AlignUpIsLeast(first + sizes[0], alignment, 0);
      PlacementIsInOrder(sizes[1..], next, alignment);
      hide AlignUp;
      var p, rest := Place(sizes, first, alignment).value, Place(sizes[1..], next, alignment).value;
      assert p == Placement([first] + rest.offsets, rest.end);
      InOrderExtends(sizes, p, rest, first, next, alignment);
    }
  }

  lemma InOrderExtends(sizes: seq<U64>, p: Placement, rest: Placement, first: U64, next: U64, alignment: U64)
    requires |sizes| > 1 && 0 < alignment && first % alignment == 0
    requires InOrder(sizes[1..], rest, next, alignment)
    requires p == Placement([first] + rest.offsets, rest.end)
    requires first + sizes[0] <= next < first + sizes[0] + alignment
    ensures InOrder(sizes, p, first, alignment)
  {
    forall i | 0 < i < |sizes|
      ensures p.offsets[i] == rest.offsets[i - 1] && sizes[i] == sizes[1..][i - 1]
      ensures first <= p.offsets[i] && p.offsets[i] % alignment == 0
      ensures p.offsets[i - 1] + sizes[i - 1] <= p.offsets[i] < p.offsets[i - 1] + sizes[i - 1] + alignment
    {
      if i > 1 {
        assert p.offsets[i - 1] == rest.offsets[i - 2] && sizes[i - 1] == sizes[1..][i - 2];
      }
    }
  }

  function PlaceAfter(done: seq<U64>, r: Result<Placement>): Result<Placement> {
    if r.Ok? then Ok(Placement(done + r.value.offsets, r.value.end)) else r
  }

  lemma PlaceAdvance(done: seq<U64>, sizes: seq<U64>, offset: U64, alignment: U64)
    requires sizes != [] && 0 < alignment
    ensures PlaceAfter(done, Place(sizes, offset, alignment))
         == if offset + sizes[0] > MAX_U64 then Err(Overflow)
            else if |sizes| == 1 then Ok(Placement(done + [offset], offset + sizes[0]))
            else if AlignUp(offset + sizes[0], alignment).Err? then Err(AlignUp(offset + sizes[0], alignment).error)
            else PlaceAfter(done + [offset], Place(sizes[1..], AlignUp(offset + sizes[0], alignment).value, alignment))
  {
    hide AlignUp;
    if offset + sizes[0] <= MAX_U64 && |sizes| > 1 && AlignUp(offset + sizes[0], alignment).Ok? {
      var rest := Place(sizes[1..], AlignUp(offset + sizes[0], alignment).value, alignment);
      if rest.Ok? {
        assert done + ([offset] + rest.value.offsets) == done + [offset] + rest.value.offsets;
      }
    }
  }

  lemma PlaceAfterNothing(r: Result<Placement>)
    ensures PlaceAfter([], r) == r
  {
    if r.Ok? {
      assert [] + r.value.offsets == r.value.offsets;
    }
  }

  /** The writer's planner: fills in the offset of every block and returns the end of the last. */
  method PlanBlocks(sizes: seq<U64>, first: U64, alignment: U64, offsets: array<U64>) returns (r: Result<U64>)
    requires sizes != [] && 0 < alignment && offsets.Length == |sizes|
    modifies offsets
    ensures match Place(sizes, first, alignment)
            case Err(e) => r == Err(e)
            case Ok(p) => r == Ok(p.end) && offsets[..] == p.offsets
  {
    hide Place, AlignUp, PlaceAfter;
    ghost var whole := Place(sizes, first, alignment);
    var offset := first;
    var planned := 0;
    ghost var unplanned := sizes;
    PlaceAfterNothing(whole);
    while true
      invariant 0 <= planned < |sizes| && unplanned == sizes[planned..]
      invariant whole == PlaceAfter(offsets[..planned], Place(unplanned, offset, alignment))
      decreases |sizes| - planned
    {
      ghost var done := offsets[..planned];
      PlaceAdvance(done, unplanned, offset, alignment);
      offsets[planned] := offset;
      assert offsets[..planned + 1] == done + [offset];
      var end := CheckedAdd(offset, sizes[planned]);
      if end.None? {
        return Err(Overflow);
      }
      planned := planned + 1;
      if planned == |sizes| {
        return Ok(end.value);
      }
      offset :- AlignUp(end.value, alignment);
      unplanned := unplanned[1..];
    }
  }

  // ---------------------------------------------------------------- header text

  /** Metadata as the header prints it: fixed text, or an element that ends with its block's location. */
  datatype Entry =
    | Plain(text: string, image: Option<nat>)
    | Block(attributes: string, image: Option<nat>)

  /** A unit to be written. Everything the offsets do not influence is carried as ready text. */
  datatype Unit = Unit(prologue: string, imageAttributes: seq<string>, metadataProlog: string, entries: seq<Entry>)

  /** The location attribute of a block. */
  function LocationAttribute(offset: U64, size: U64): string {
    " location=\"" + LocationText(offset, size) + "\""
  }

  /** How many of the first `k` entries are backed by a block. */
  function BlockOrdinal(entries: seq<Entry>, k: int): (n: int)
    requires 0 <= k <= |entries|
    ensures 0 <= n <= k
  {
    if k == 0 then 0 else BlockOrdinal(entries, k - 1) + if entries[k - 1].Block? then 1 else 0
  }

  /** Images first, then block-backed entries: the order in which blocks are planned. */
  function BlockCount(unit: Unit): int {
    |unit.imageAttributes| + BlockOrdinal(unit.entries, |unit.entries|)
  }

  lemma {:induction false} OrdinalInRange(entries: seq<Entry>, k: int, n: int)
    requires 0 <= k < n <= |entries| && entries[k].Block?
    ensures BlockOrdinal(entries, k) < BlockOrdinal(entries, n)
    decreases n
  {
    if k < n - 1 {
      OrdinalInRange(entries, k, n - 1);
    }
  }

  function EntryText(unit: Unit, sizes: seq<U64>, offsets: seq<U64>, k: int): string
    requires |sizes| == |offsets| == BlockCount(unit) && 0 <= k < |unit.entries|
  {
    match unit.entries[k]
    case Plain(text, _) => text
    case Block(attributes, _) =>
      OrdinalInRange(unit.entries, k, |unit.entries|);
      var b := |unit.imageAttributes| + BlockOrdinal(unit.entries, k);
      attributes + LocationAttribute(offsets[b], sizes[b]) + "/>"
  }

  /** The entries from `k` on that belong to the given image, or to none. */
  function Children(unit: Unit, sizes: seq<U64>, offsets: seq<U64>, image: Option<nat>, k: int): string
    requires |sizes| == |offsets| == BlockCount(unit) && 0 <= k <= |unit.entries|
    decreases |unit.entries| - k
  {
    if k == |unit.entries| then ""
    else (if unit.entries[k].image == image then EntryText(unit, sizes, offsets, k) else "")
         + Children(unit, sizes, offsets, image, k + 1)
  }

  predicate HasChildren(unit: Unit, image: Option<nat>) {
    exists k :: 0 <= k < |unit.entries| && unit.entries[k].image == image
  }

  function ImageText(unit: Unit, sizes: seq<U64>, offsets: seq<U64>, i: int): string
    requires |sizes| == |offsets| == BlockCount(unit) && 0 <= i < |unit.imageAttributes|
  {
    "<Image" + unit.imageAttributes[i] + LocationAttribute(offsets[i], sizes[i])
    + if HasChildren(unit, Some(i)) then ">" + Children(unit, sizes, offsets, Some(i), 0) + "</Image>" else "/>"
  }

  function Images(unit: Unit, sizes: seq<U64>, offsets: seq<U64>, i: int): string
    requires |sizes| == |offsets| == BlockCount(unit) && 0 <= i <= |unit.imageAttributes|
    decreases |unit.imageAttributes| - i
  {
    if i == |unit.imageAttributes| then ""
    else ImageText(unit, sizes, offsets, i) + Images(unit, sizes, offsets, i + 1)
  }

  function HeaderText(unit: Unit, sizes: seq<U64>, offsets: seq<U64>): string
    requires |sizes| == |offsets| == BlockCount(unit)
  {
    unit.prologue + Images(unit, sizes, offsets, 0)
    + (unit.metadataProlog + (Children(unit, sizes, offsets, None, 0) + "</Metadata></xisf>"))
  }

  lemma Assoc4(a: string, b: string, c: string, d: string)
    ensures a + b + (c + d) == a + (b + c) + d
    ensures a + (b + (c + d)) == a + b + c + d
  {
  }

  /** The children of one image, or of none, as `make_header` appends them; the first of an image's opens its content. */
  method AppendChildren(unit: Unit, sizes: seq<U64>, offsets: seq<U64>, image: Option<nat>, opening: string)
    returns (text: string, any: bool)
    requires |sizes| == |offsets| == BlockCount(unit)
    ensures any <==> HasChildren(unit, image)
    ensures text == if any then opening + Children(unit, sizes, offsets, image, 0) else ""
    ensures !any ==> Children(unit, sizes, offsets, image, 0) == ""
  {
    hide EntryText;
    ghost var done := "";
    text, any := "", false;
    var k := 0;
    while k < |unit.entries|
      invariant 0 <= k <= |unit.entries|
      invariant any <==> exists j :: 0 <= j < k && unit.entries[j].image == image
      invariant text == if any then opening + done else ""
      invariant !any ==> done == ""
      invariant done + Children(unit, sizes, offsets, image, k) == Children(unit, sizes, offsets, image, 0)
    {
      if unit.entries[k].image == image {
        var entry := EntryText(unit, sizes, offsets, k);
        if !any {
          text := opening;
          any := true;
        }
        Assoc(opening, done, entry);
        Assoc(done, entry, Children(unit, sizes, offsets, image, k + 1));
        assert opening + "" == opening;
        text := text + entry;
        done := done + entry;
      } else {
        assert "" + Children(unit, sizes, offsets, image, k + 1) == Children(unit, sizes, offsets, image, k + 1);
      }
      k := k + 1;
    }
    assert done + "" == done;
  }

  /** `make_header`: one Image element after another, then the unit's metadata. */
  method MakeHeader(unit: Unit, sizes: seq<U64>, offsets: seq<U64>) returns (header: string)
    requires |sizes| == |offsets| == BlockCount(unit)
    ensures header == HeaderText(unit, sizes, offsets)
  {
    hide Children, ImageText, LocationAttribute;
    header := unit.prologue;
    ghost var images := Images(unit, sizes, offsets, 0);
    ghost var done := "";
    var i := 0;
    assert header + done == header && done + images == images;
    while i < |unit.imageAttributes|
      invariant 0 <= i <= |unit.imageAttributes|
      invariant header == unit.prologue + done
      invariant done + Images(unit, sizes, offsets, i) == images
    {
      var children, any := AppendChildren(unit, sizes, offsets, Some(i), ">");
      var start := "<Image" + unit.imageAttributes[i] + LocationAttribute(offsets[i], sizes[i]);
      var element := start + (children + if any then "</Image>" else "/>");
      ImageIs(unit, sizes, offsets, i, start, children, any);
      Assoc(unit.prologue, done, element);
      Assoc(done, element, Images(unit, sizes, offsets, i + 1));
      header := header + element;
      done := done + element;
      i := i + 1;
    }
    assert done + "" == done;
    header := header + unit.metadataProlog;
    var children, any := AppendChildren(unit, sizes, offsets, None, "");
    assert any ==> "" + Children(unit, sizes, offsets, None, 0) == Children(unit, sizes, offsets, None, 0);
    Assoc4(unit.prologue + images, unit.metadataProlog, children, "</Metadata></xisf>");
    header := header + children + "</Metadata></xisf>";
  }

  lemma ImageIs(unit: Unit, sizes: seq<U64>, offsets: seq<U64>, i: int, start: string, children: string, any: bool)
    requires |sizes| == |offsets| == BlockCount(unit) && 0 <= i < |unit.imageAttributes|
    requires start == "<Image" + unit.imageAttributes[i] + LocationAttribute(offsets[i], sizes[i])
    requires any <==> HasChildren(unit, Some(i))
    requires children == if any then ">" + Children(unit, sizes, offsets, Some(i), 0) else ""
    ensures ImageText(unit, sizes, offsets, i) == start + (children + if any then "</Image>" else "/>")
  {
    hide Children, LocationAttribute;
  }

  // ---------------------------------------------------------------- how the header grows with the offsets

  /** Offsets that only moved up, from values of at least two digits. */
  predicate MovedUp(low: seq<U64>, high: seq<U64>) {
    |low| == |high| && forall i | 0 <= i < |low| :: 16 <= low[i] <= high[i]
  }

  /** No offset is more than ten times what it was. */
  predicate Near(low: seq<U64>, high: seq<U64>) {
    |low| == |high| && forall i | 0 <= i < |low| :: high[i] as int <= 10 * (low[i] as int)
  }

  /** How far `blocks` printed locations can grow: by one digit each while offsets stay near, else by eighteen. */
  function Room(near: bool, blocks: int): int {
    if near then blocks else 18 * blocks
  }

  lemma LocationGrowth(low: U64, high: U64, size: U64)
    requires 16 <= low <= high
    ensures 25 <= |LocationAttribute(low, size)| <= |LocationAttribute(high, size)| <= |LocationAttribute(low, size)| + 18
    ensures high <= 10 * low ==> |LocationAttribute(high, size)| <= |LocationAttribute(low, size)| + 1
  {
    DigitCountIsMonotone(low, high);
    DigitCountRange(low);
    DigitCountRange(high);
    assert |ToDecimal(10 * low)| == |ToDecimal(low)| + 1 by {
      assert 10 * low / 10 == low;
    }
    if high <= 10 * low {
      DigitCountIsMonotone(high, 10 * low);
    }
    hide ToDecimal;
  }

  /** Block-backed entries of one image, or of none, from `k` on. */
  function Matching(entries: seq<Entry>, image: Option<nat>, k: int): (n: int)
    requires 0 <= k <= |entries|
    ensures 0 <= n
    decreases |entries| - k
  {
    if k == |entries| then 0
    else (if entries[k].Block? && entries[k].image == image then 1 else 0) + Matching(entries, image, k + 1)
  }

  /** The same, summed over images `i` to `n` - 1. */
  function Owned(entries: seq<Entry>, i: int, n: int, k: int): (m: int)
    requires 0 <= i <= n && 0 <= k <= |entries|
    ensures 0 <= m
    decreases n - i
  {
    if i == n then 0 else Matching(entries, Some(i), k) + Owned(entries, i + 1, n, k)
  }

  lemma {:induction false} OwnedStep(entries: seq<Entry>, i: int, n: int, k: int)
    requires 0 <= i <= n && 0 <= k < |entries|
    ensures Owned(entries, i, n, k)
         == Owned(entries, i, n, k + 1)
            + if entries[k].Block? && entries[k].image.Some? && i <= entries[k].image.value < n then 1 else 0
    decreases n - i
  {
    if i < n {
      OwnedStep(entries, i + 1, n, k);
    }
  }

  /** From `k` on, block-backed entries name images that exist. */
  predicate ImagesExist(entries: seq<Entry>, n: int, k: int) {
    forall j | k <= j < |entries| && 0 <= j && entries[j].Block? && entries[j].image.Some? :: entries[j].image.value < n
  }

  /** Every block-backed entry is printed under one image at most, or under none; exactly once if its image exists. */
  lemma {:induction false} PrintedOnce(entries: seq<Entry>, n: int, k: int)
    requires 0 <= n && 0 <= k <= |entries|
    ensures Owned(entries, 0, n, k) + Matching(entries, None, k)
            <= BlockOrdinal(entries, |entries|) - BlockOrdinal(entries, k)
    ensures ImagesExist(entries, n, k) ==>
              Owned(entries, 0, n, k) + Matching(entries, None, k) == BlockOrdinal(entries, |entries|) - BlockOrdinal(entries, k)
    decreases |entries| - k
  {
    if k < |entries| {
      OwnedStep(entries, 0, n, k);
      PrintedOnce(entries, n, k + 1);
    } else {
      NothingOwned(entries, 0, n);
    }
  }

  lemma {:induction false} NothingOwned(entries: seq<Entry>, i: int, n: int)
    requires 0 <= i <= n
    ensures Owned(entries, i, n, |entries|) == 0
    decreases n - i
  {
    if i < n {
      NothingOwned(entries, i + 1, n);
    }
  }

  lemma EntryGrowth(unit: Unit, sizes: seq<U64>, low: seq<U64>, high: seq<U64>, k: int)
    requires |sizes| == |low| == BlockCount(unit) && MovedUp(low, high) && 0 <= k < |unit.entries|
    ensures |EntryText(unit, sizes, low, k)| <= |EntryText(unit, sizes, high, k)|
         <= |EntryText(unit, sizes, low, k)| + Room(Near(low, high), if unit.entries[k].Block? then 1 else 0)
    ensures unit.entries[k].Block? ==> 25 <= |EntryText(unit, sizes, low, k)|
  {
    hide LocationAttribute;
    if unit.entries[k].Block? {
      OrdinalInRange(unit.entries, k, |unit.entries|);
      var b := |unit.imageAttributes| + BlockOrdinal(unit.entries, k);
      LocationGrowth(low[b], high[b], sizes[b]);
    }
  }

  lemma {:induction false} ChildrenGrowth(unit: Unit, sizes: seq<U64>, low: seq<U64>, high: seq<U64>, image: Option<nat>, k: int)
    requires |sizes| == |low| == BlockCount(unit) && MovedUp(low, high) && 0 <= k <= |unit.entries|
    ensures |Children(unit, sizes, low, image, k)| <= |Children(unit, sizes, high, image, k)|
         <= |Children(unit, sizes, low, image, k)| + Room(Near(low, high), Matching(unit.entries, image, k))
    ensures 25 * Matching(unit.entries, image, k) <= |Children(unit, sizes, low, image, k)|
    decreases |unit.entries| - k
  {
    hide EntryText;
    if k < |unit.entries| {
      EntryGrowth(unit, sizes, low, high, k);
      ChildrenGrowth(unit, sizes, low, high, image, k + 1);
    }
  }

  lemma {:induction false} NoneMatching(unit: Unit, image: Option<nat>, k: int)
    requires 0 <= k <= |unit.entries| && !HasChildren(unit, image)
    ensures Matching(unit.entries, image, k) == 0
    decreases |unit.entries| - k
  {
    if k < |unit.entries| {
      NoneMatching(unit, image, k + 1);
    }
  }

  lemma ImageGrowth(unit: Unit, sizes: seq<U64>, low: seq<U64>, high: seq<U64>, i: int)
    requires |sizes| == |low| == BlockCount(unit) && MovedUp(low, high) && 0 <= i < |unit.imageAttributes|
    ensures |ImageText(unit, sizes, low, i)| <= |ImageText(unit, sizes, high, i)|
         <= |ImageText(unit, sizes, low, i)| + Room(Near(low, high), 1 + Matching(unit.entries, Some(i), 0))
    ensures 25 * (1 + Matching(unit.entries, Some(i), 0)) <= |ImageText(unit, sizes, low, i)|
  {
    hide LocationAttribute, Children;
    if !HasChildren(unit, Some(i)) {
      NoneMatching(unit, Some(i), 0);
    }
    LocationGrowth(low[i], high[i], sizes[i]);
    ChildrenGrowth(unit, sizes, low, high, Some(i), 0);
  }

  lemma {:induction false} ImagesGrowth(unit: Unit, sizes: seq<U64>, low: seq<U64>, high: seq<U64>, i: int)
    requires |sizes| == |low| == BlockCount(unit) && MovedUp(low, high) && 0 <= i <= |unit.imageAttributes|
    ensures var n := |unit.imageAttributes|;
            |Images(unit, sizes, low, i)| <= |Images(unit, sizes, high, i)|
         <= |Images(unit, sizes, low, i)| + Room(Near(low, high), n - i + Owned(unit.entries, i, n, 0))
    ensures 25 * (|unit.imageAttributes| - i + Owned(unit.entries, i, |unit.imageAttributes|, 0)) <= |Images(unit, sizes, low, i)|
    decreases |unit.imageAttributes| - i
  {
    hide ImageText;
    if i < |unit.imageAttributes| {
      ImageGrowth(unit, sizes, low, high, i);
      ImagesGrowth(unit, sizes, low, high, i + 1);
    }
  }

  /** The blocks that the header prints a location for. */
  function PrintedBlocks(unit: Unit): (n: int)
    ensures 0 <= n <= BlockCount(unit)
  {
    PrintedOnce(unit.entries, |unit.imageAttributes|, 0);
    |unit.imageAttributes| + Owned(unit.entries, 0, |unit.imageAttributes|, 0) + Matching(unit.entries, None, 0)
  }

  /**
   Moving the blocks up never shortens the header, and lengthens it by at most 18 characters a block,
   or by one if no offset is more than ten times what it was.
   */
  lemma HeaderGrowth(unit: Unit, sizes: seq<U64>, low: seq<U64>, high: seq<U64>)
    requires |sizes| == |low| == BlockCount(unit) && MovedUp(low, high)
    ensures |HeaderText(unit, sizes, low)| <= |HeaderText(unit, sizes, high)|
         <= |HeaderText(unit, sizes, low)| + Room(Near(low, high), PrintedBlocks(unit))
    ensures 25 * PrintedBlocks(unit) <= |HeaderText(unit, sizes, low)|
  {
    hide Images, Children;
    ImagesGrowth(unit, sizes, low, high, 0);
    ChildrenGrowth(unit, sizes, low, high, None, 0);
    PrintedOnce(unit.entries, |unit.imageAttributes|, 0);
  }

  // ---------------------------------------------------------------- the layout fixed point

  const PREAMBLE_SIZE := 16

  /** The attachment offset asked for by the header that is printed when the blocks start at `first`. */
  function NextOffset(unit: Unit, sizes: seq<U64>, alignment: U64, first: U64): Result<U64>
    requires sizes != [] && |sizes| == BlockCount(unit) && 0 < alignment
  {
    var p := Place(sizes, first, alignment);
    if p.Err? then Err(p.error)
    else if CheckedAdd(PREAMBLE_SIZE, Min(MAX_U64, |HeaderText(unit, sizes, p.value.offsets)|)).None? then Err(Overflow)
    else AlignUp(PREAMBLE_SIZE + |HeaderText(unit, sizes, p.value.offsets)|, alignment)
  }

  /** The attachment offset after some passes of the layout loop. */
  function OffsetAfter(unit: Unit, sizes: seq<U64>, alignment: U64, passes: nat): Result<U64>
    requires sizes != [] && |sizes| == BlockCount(unit) && 0 < alignment
  {
    if passes == 0 then Ok(alignment)
    else
      var before := OffsetAfter(unit, sizes, alignment, passes - 1);
      if before.Err? then before else NextOffset(unit, sizes, alignment, before.value)
  }

  /** The first `passes` passes have all moved the blocks. */
  predicate Moving(unit: Unit, sizes: seq<U64>, alignment: U64, passes: nat)
    requires sizes != [] && |sizes| == BlockCount(unit) && 0 < alignment
  {
    && OffsetAfter(unit, sizes, alignment, passes).Ok?
    && forall k | 0 <= k < passes :: OffsetAfter(unit, sizes, alignment, k) != OffsetAfter(unit, sizes, alignment, k + 1)
  }

  /** Four passes were not enough. */
  predicate Unsettled(unit: Unit, sizes: seq<U64>, alignment: U64)
    requires sizes != [] && |sizes| == BlockCount(unit) && 0 < alignment
  {
    && Moving(unit, sizes, alignment, 4)
    && Place(sizes, OffsetAfter(unit, sizes, alignment, 4).value, alignment).Ok?
  }

  lemma MovesNothingYet(unit: Unit, sizes: seq<U64>, alignment: U64)
    requires sizes != [] && |sizes| == BlockCount(unit) && 0 < alignment
    ensures Moving(unit, sizes, alignment, 0) && OffsetAfter(unit, sizes, alignment, 0) == Ok(alignment)
  {
  }

  /** What one more pass makes of it: it fails, it finds nothing to move, or the blocks have moved again. */
  lemma OnePass(unit: Unit, sizes: seq<U64>, alignment: U64, passes: nat, a: U64)
    requires sizes != [] && |sizes| == BlockCount(unit) && 0 < alignment && passes < 4
    requires Moving(unit, sizes, alignment, passes) && OffsetAfter(unit, sizes, alignment, passes) == Ok(a)
    ensures var next := NextOffset(unit, sizes, alignment, a);
            && OffsetAfter(unit, sizes, alignment, passes + 1) == next
            && (next.Err? || next.value == a ==> !Unsettled(unit, sizes, alignment))
            && (next.Ok? && next.value != a ==> Moving(unit, sizes, alignment, passes + 1))
            && (Place(sizes, a, alignment).Err? ==> next.Err?)
  {
    hide Place, HeaderText, AlignUp, NextOffset;
    assert Place(sizes, a, alignment).Err? ==> NextOffset(unit, sizes, alignment, a).Err? by {
      PlaceDecides(unit, sizes, alignment, a);
    }
    if NextOffset(unit, sizes, alignment, a).Err? {
      FailedForGood(unit, sizes, alignment, passes + 1, 4);
    }
  }

  lemma NoRoomSettles(unit: Unit, sizes: seq<U64>, alignment: U64, passes: nat, a: U64)
    requires sizes != [] && |sizes| == BlockCount(unit) && 0 < alignment && passes <= 4
    requires Moving(unit, sizes, alignment, passes) && OffsetAfter(unit, sizes, alignment, passes) == Ok(a)
    ensures Place(sizes, a, alignment).Err? ==> !Unsettled(unit, sizes, alignment)
    ensures passes == 4 && Place(sizes, a, alignment).Ok? ==> Unsettled(unit, sizes, alignment)
  {
    hide Place, NextOffset, OffsetAfter, Moving;
    if passes < 4 {
      OnePass(unit, sizes, alignment, passes, a);
    }
  }

  lemma PlaceDecides(unit: Unit, sizes: seq<U64>, alignment: U64, a: U64)
    requires sizes != [] && |sizes| == BlockCount(unit) && 0 < alignment
    ensures Place(sizes, a, alignment).Err? ==> NextOffset(unit, sizes, alignment, a).Err?
  {
    hide Place, HeaderText, AlignUp;
  }

  lemma {:induction false} FailedForGood(unit: Unit, sizes: seq<U64>, alignment: U64, k: nat, n: nat)
    requires sizes != [] && |sizes| == BlockCount(unit) && 0 < alignment && k <= n
    requires OffsetAfter(unit, sizes, alignment, k).Err?
    ensures OffsetAfter(unit, sizes, alignment, n).Err?
  {
    hide NextOffset;
    if k < n {
      FailedForGood(unit, sizes, alignment, k, n - 1);
    }
  }

  /** A consistent layout: the header printed for it asks for the very offset it was printed with. */
  predicate IsFixed(unit: Unit, sizes: seq<U64>, alignment: U64, first: U64)
    requires sizes != [] && |sizes| == BlockCount(unit) && 0 < alignment
  {
    NextOffset(unit, sizes, alignment, first) == Ok(first)
  }

  lemma NextOffsetIsAligned(unit: Unit, sizes: seq<U64>, alignment: U64, first: U64)
    requires sizes != [] && |sizes| == BlockCount(unit) && 16 <= alignment
    ensures var r := NextOffset(unit, sizes, alignment, first);
            if r.Ok? then alignment <= r.value && r.value % alignment == 0 else r == Err(Overflow)
  {
    hide HeaderText, Place;
    PlaceFailsByOverflow(sizes, first, alignment);
    var p := Place(sizes, first, alignment);
    if p.Ok? && PREAMBLE_SIZE + |HeaderText(unit, sizes, p.value.offsets)| <= MAX_U64 {
      var end := PREAMBLE_SIZE + |HeaderText(unit, sizes, p.value.offsets)|;
      AlignUpIsLeast(end, alignment, 0);
      if AlignUp(end, alignment).Ok? {
        MultiplesAreSpaced(0, AlignUp(end, alignment).value, alignment);
      }
    }
  }

  lemma {:induction false} PlaceFailsByOverflow(sizes: seq<U64>, first: U64, alignment: U64)
    requires sizes != [] && 0 < alignment
    ensures Place(sizes, first, alignment).Err? ==> Place(sizes, first, alignment) == Err(Overflow)
    decreases |sizes|
  {
    if CheckedAdd(first, sizes[0]).Some? && |sizes| > 1 && AlignUp(first + sizes[0], alignment).Ok? {
      PlaceFailsByOverflow(sizes[1..], AlignUp(first + sizes[0], alignment).value, alignment);
    }
  }

  lemma PlacedMovesUp(sizes: seq<U64>, a: U64, b: U64, alignment: U64)
    requires sizes != [] && 16 <= alignment <= a <= b && a % alignment == 0
    requires Place(sizes, b, alignment).Ok?
    ensures Place(sizes, a, alignment).Ok?
    ensures MovedUp(Place(sizes, a, alignment).value.offsets, Place(sizes, b, alignment).value.offsets)
  {
    hide Place;
    PlaceIsMonotone(sizes, a, b, alignment);
    PlacementIsInOrder(sizes, a, alignment);
  }

  /** Blocks that start later by a multiple of the alignment are all later by that much. */
  lemma {:induction false} PlaceTranslates(sizes: seq<U64>, a: U64, b: U64, alignment: U64)
    requires sizes != [] && 0 < alignment && a <= b && a % alignment == 0 && b % alignment == 0
    requires Place(sizes, a, alignment).Ok? && Place(sizes, b, alignment).Ok?
    ensures var low, high := Place(sizes, a, alignment).value, Place(sizes, b, alignment).value;
            forall i | 0 <= i < |sizes| :: high.offsets[i] == low.offsets[i] + (b - a)
    decreases |sizes|
  {
    if |sizes| > 1 {
      AlignUpTranslates(a + sizes[0], b + sizes[0], a, b, alignment);
      AlignUpIsLeast(a + sizes[0], alignment, 0);
      AlignUpIsLeast(b + sizes[0], alignment, 0);
      hide AlignUp;
      PlaceTranslates(sizes[1..], AlignUp(a + sizes[0], alignment).value, AlignUp(b + sizes[0], alignment).value, alignment);
    }
  }

  lemma AlignUpTranslates(x: U64, y: U64, a: int, b: int, alignment: U64)
    requires 0 < alignment && AlignUp(x, alignment).Ok? && AlignUp(y, alignment).Ok?
    requires 0 <= a && 0 <= b && a % alignment == 0 && b % alignment == 0 && y - x == b - a
    ensures AlignUp(y, alignment).value - AlignUp(x, alignment).value == y - x
  {
    Mul.Split(a, alignment);
    Mul.Split(b, alignment);
    Mul.Split(x, alignment);
    var q, d := x / alignment, b / alignment - a / alignment;
    assert (q + d) * alignment == q * alignment + b - a;
    Mul.DivMod(q + d, x % alignment, alignment);
  }

  /**
   The layout map is monotone. One alignment bounds its whole range once 18 characters a block fit in
   it, and its range up to ten times the argument once one character a block does.
   */
  lemma NextOffsetIsMonotone(unit: Unit, sizes: seq<U64>, alignment: U64, a: U64, b: U64)
    requires sizes != [] && |sizes| == BlockCount(unit) && 16 <= alignment <= a <= b && a % alignment == 0
    requires NextOffset(unit, sizes, alignment, b).Ok?
    ensures NextOffset(unit, sizes, alignment, a).Ok?
    ensures NextOffset(unit, sizes, alignment, a).value <= NextOffset(unit, sizes, alignment, b).value
    ensures NextOffset(unit, sizes, alignment, b).value <= NextOffset(unit, sizes, alignment,
            a).value + 18 * PrintedBlocks(unit) + alignment
    ensures 25 * PrintedBlocks(unit) <= NextOffset(unit, sizes, alignment, a).value
    ensures 18 * BlockCount(unit) <= alignment ==>
              NextOffset(unit, sizes, alignment, b).value <= NextOffset(unit, sizes, alignment, a).value + alignment
    ensures BlockCount(unit) <= alignment && b % alignment == 0 && b <= 10 * a ==>
              NextOffset(unit, sizes, alignment, b).value <= NextOffset(unit, sizes, alignment, a).value + alignment
  {
    hide HeaderText, Place, AlignUp, MovedUp, Near, BlockCount, PrintedBlocks;
    PlacedMovesUp(sizes, a, b, alignment);
    var low, high := Place(sizes, a, alignment).value, Place(sizes, b, alignment).value;
    HeaderGrowth(unit, sizes, low.offsets, high.offsets);
    NextOffsetUnfold(unit, sizes, alignment, a, low.offsets, low.end);
    NextOffsetUnfold(unit, sizes, alignment, b, high.offsets, high.end);
    hide NextOffset;
    var lowSize, highSize := |HeaderText(unit, sizes, low.offsets)|, |HeaderText(unit, sizes, high.offsets)|;
    AlignUpIsMonotone(PREAMBLE_SIZE + lowSize, PREAMBLE_SIZE + highSize, alignment);
    AlignUpIsLeast(PREAMBLE_SIZE + lowSize, alignment, 0);
    AlignUpIsLeast(PREAMBLE_SIZE + highSize, alignment, 0);
    if BlockCount(unit) <= alignment && b % alignment == 0 && b <= 10 * a {
      PlacedNear(sizes, a, b, alignment);
    }
    if highSize <= lowSize + alignment {
      AlignUpGrowth(PREAMBLE_SIZE + lowSize, PREAMBLE_SIZE + highSize, alignment);
    }
  }

  lemma PlacedNear(sizes: seq<U64>, a: U64, b: U64, alignment: U64)
    requires sizes != [] && 16 <= alignment <= a <= b <= 10 * a && a % alignment == 0 && b % alignment == 0
    requires Place(sizes, a, alignment).Ok? && Place(sizes, b, alignment).Ok?
    ensures Near(Place(sizes, a, alignment).value.offsets, Place(sizes, b, alignment).value.offsets)
  {
    hide Place;
    PlaceTranslates(sizes, a, b, alignment);
    PlacementIsInOrder(sizes, a, alignment);
  }

  lemma AlignUpGrowth(low: U64, high: U64, alignment: U64)
    requires 0 < alignment && low <= high <= low + alignment && AlignUp(high, alignment).Ok? && AlignUp(low, alignment).Ok?
    ensures AlignUp(high, alignment).value <= AlignUp(low, alignment).value + alignment
  {
    AlignUpIsLeast(low, alignment, 0);
    AlignUpIsLeast(high, alignment, 0);
    hide AlignUp;
    var a, b := AlignUp(low, alignment).value, AlignUp(high, alignment).value;
    NextMultiple(a, alignment);
    if a + alignment < b {
      MultiplesAreSpaced(a + alignment, b, alignment);
    }
  }

  datatype FileLayout = FileLayout(header: string, attachmentOffset: U64, offsets: seq<U64>, fileSize: U64)

  /** A layout whose header tells the truth: it was printed for exactly the offsets the blocks have. */
  ghost predicate Truthful(unit: Unit, sizes: seq<U64>, alignment: U64, layout: FileLayout)
    requires sizes != [] && |sizes| == BlockCount(unit) && 0 < alignment
  {
    && Place(sizes, layout.attachmentOffset, alignment) == Ok(Placement(layout.offsets, layout.fileSize))
    && layout.header == HeaderText(unit, sizes, layout.offsets)
    && IsFixed(unit, sizes, alignment, layout.attachmentOffset)
  }

  ghost predicate BelowFixedPoints(unit: Unit, sizes: seq<U64>, alignment: U64, a: U64)
    requires sizes != [] && |sizes| == BlockCount(unit) && 0 < alignment
  {
    forall p: U64 :: IsFixed(unit, sizes, alignment, p) ==> a <= p
  }

  /** One pass of the layout loop, started below every fixed point. */
  lemma PassAscends(unit: Unit, sizes: seq<U64>, alignment: U64, a: U64)
    requires sizes != [] && |sizes| == BlockCount(unit) && 16 <= alignment <= a && a % alignment == 0
    requires BelowFixedPoints(unit, sizes, alignment, a)
    ensures var next := NextOffset(unit, sizes, alignment, a);
            match next
            case Err(_) => forall p: U64 :: !IsFixed(unit, sizes, alignment, p)
            case Ok(b) => BelowFixedPoints(unit, sizes, alignment, b)
  {
    hide NextOffset;
    forall p: U64 | IsFixed(unit, sizes, alignment, p)
      ensures NextOffset(unit, sizes, alignment, a).Ok? && NextOffset(unit, sizes, alignment, a).value <= p
    {
      NextOffsetIsMonotone(unit, sizes, alignment, a, p);
    }
  }

  lemma StartsBelow(unit: Unit, sizes: seq<U64>, alignment: U64)
    requires sizes != [] && |sizes| == BlockCount(unit) && 16 <= alignment
    ensures BelowFixedPoints(unit, sizes, alignment, alignment)
  {
    hide NextOffset;
    forall p: U64 | IsFixed(unit, sizes, alignment, p)
      ensures alignment <= p
    {
      NextOffsetIsAligned(unit, sizes, alignment, p);
    }
  }

  /** What is known before pass `iteration`; `first` and `second` are the offsets that the first two passes asked for. */
  ghost predicate LoopState(unit: Unit, sizes: seq<U64>, alignment: U64, iteration: int, a: U64, first: U64, second: U64)
    requires sizes != [] && |sizes| == BlockCount(unit) && 0 < alignment
  {
    && alignment <= a && a % alignment == 0
    && BelowFixedPoints(unit, sizes, alignment, a)
    && (NextOffset(unit, sizes, alignment, a).Ok? ==> a <= NextOffset(unit, sizes, alignment, a).value)
    && (if iteration == 0 then a == alignment
        else NextOffset(unit, sizes, alignment, alignment) == Ok(first) && first % alignment == 0 && alignment <= first <= a
             && 25 * PrintedBlocks(unit) <= first && a <= first + 18 * PrintedBlocks(unit) + alignment)
    && (iteration == 1 ==> a == first)
    && (iteration >= 2 ==>
          && NextOffset(unit, sizes, alignment, first) == Ok(second) && second <= a && first + alignment <= a
          && second % alignment == 0)
    && (iteration == 2 ==> a == second)
    && (iteration >= 3 ==> second + alignment <= a)
  }

  lemma LoopStateAdvances(unit: Unit, sizes: seq<U64>, alignment: U64, iteration: int, a: U64, first: U64, second: U64)
    requires sizes != [] && |sizes| == BlockCount(unit) && 16 <= alignment && 0 <= iteration
    requires LoopState(unit, sizes, alignment, iteration, a, first, second)
    requires NextOffset(unit, sizes, alignment, a).Ok? && NextOffset(unit, sizes, alignment, a).value != a
    ensures var b := NextOffset(unit, sizes, alignment, a).value;
            && LoopState(unit, sizes, alignment, iteration + 1, b, if iteration == 0 then b else first,
                if iteration == 1 then b else second)
            && (18 * BlockCount(unit) <= alignment ==> iteration < 2)
            && (BlockCount(unit) <= alignment ==> iteration < 3)
  {
    hide NextOffset, BelowFixedPoints, BlockCount, PrintedBlocks;
    var b := NextOffset(unit, sizes, alignment, a).value;
    NextOffsetIsAligned(unit, sizes, alignment, a);
    PassAscends(unit, sizes, alignment, a);
    MultiplesAreSpaced(a, b, alignment);
    if NextOffset(unit, sizes, alignment, b).Ok? {
      NextOffsetIsMonotone(unit, sizes, alignment, a, b);
    }
    NextOffsetIsMonotone(unit, sizes, alignment, alignment, a);
    if iteration >= 2 {
      NextOffsetIsMonotone(unit, sizes, alignment, first, a);
    }
  }

  /**
   The layout loop of `write_impl`. It ends in the least consistent layout, or refuses because no
   layout fits in 64 bits, or because a header limit is exceeded, or exactly if four passes were not
   enough. The last cannot happen while there are no more blocks than the alignment has bytes: once
   the first pass has found the header's length, no location grows by more than one digit. While even
   18 characters a block fit in the alignment, the third pass finds nothing to move.
   */
  method StabilizeLayout(unit: Unit, sizes: seq<U64>, alignment: U64, maxHeaderBytes: U64) returns (r: Result<FileLayout>)
    requires sizes != [] && |sizes| == BlockCount(unit) && 16 <= alignment
    ensures r.Ok? ==> (
              && Truthful(unit, sizes, alignment, r.value)
              && BelowFixedPoints(unit, sizes, alignment, r.value.attachmentOffset)
              && |r.value.header| <= Min(maxHeaderBytes, 0xFFFF_FFFF))
    ensures r.Err? ==> r.error in {Overflow, ResourceLimit, InternalError}
    ensures r == Err(Overflow) ==> forall p: U64 :: !IsFixed(unit, sizes, alignment, p)
    ensures r == Err(InternalError) <==> Unsettled(unit, sizes, alignment)
    ensures r == Err(InternalError) ==> BlockCount(unit) > alignment
    ensures r.Ok? ==> exists passes: nat ::
                        && passes < (if 18 * BlockCount(unit) <= alignment then 3 else 4)
                        && OffsetAfter(unit, sizes, alignment, passes) == Ok(r.value.attachmentOffset)
    ensures r == Err(ResourceLimit) ==>
              exists p: U64 :: IsFixed(unit, sizes, alignment, p) && BelowFixedPoints(unit, sizes, alignment, p)
                            && |HeaderText(unit, sizes, Place(sizes, p, alignment).value.offsets)| > Min(maxHeaderBytes, 0xFFFF_FFFF)
  {
    hide HeaderText, Place, AlignUp, BelowFixedPoints, LoopState, BlockCount, NextOffset, OffsetAfter, Moving, Unsettled;
    MovesNothingYet(unit, sizes, alignment);
    var attachmentOffset := alignment;
    var offsets := new U64[|sizes|];
    StartsBelow(unit, sizes, alignment);
    LoopStarts(unit, sizes, alignment);
    var planned := PlanBlocks(sizes, attachmentOffset, alignment, offsets);
    NoRoomSettles(unit, sizes, alignment, 0, attachmentOffset);
    if planned.Err? {
      OverflowIsFinal(unit, sizes, alignment, attachmentOffset);
      return Err(planned.error);
    }
    var fileSize := planned.value;
    var header := "";
    var stable := false;
    ghost var first, second := attachmentOffset, attachmentOffset;
    var iteration := 0;
    while iteration < 4
      invariant 0 <= iteration <= 4
      invariant LoopState(unit, sizes, alignment, iteration, attachmentOffset, first, second)
      invariant Place(sizes, attachmentOffset, alignment) == Ok(Placement(offsets[..], fileSize))
      invariant 18 * BlockCount(unit) <= alignment ==> iteration <= 2
      invariant BlockCount(unit) <= alignment ==> iteration <= 3
      invariant !stable
      invariant Moving(unit, sizes, alignment, iteration) && OffsetAfter(unit, sizes, alignment, iteration) == Ok(attachmentOffset)
    {
      OnePass(unit, sizes, alignment, iteration, attachmentOffset);
      header := MakeHeader(unit, sizes, offsets[..]);
      NextOffsetUnfold(unit, sizes, alignment, attachmentOffset, offsets[..], fileSize);
      LoopStateFacts(unit, sizes, alignment, iteration, attachmentOffset, first, second);
      PassAscends(unit, sizes, alignment, attachmentOffset);
      if |header| > MAX_U64 - PREAMBLE_SIZE {
        return Err(Overflow);
      }
      var aligned := AlignUp(PREAMBLE_SIZE + |header|, alignment);
      if aligned.Err? {
        NextOffsetIsAligned(unit, sizes, alignment, attachmentOffset);
        return Err(aligned.error);
      }
      if aligned.value == attachmentOffset {
        stable := true;
        break;
      }
      LoopStateAdvances(unit, sizes, alignment, iteration, attachmentOffset, first, second);
      first := if iteration == 0 then aligned.value else first;
      second := if iteration == 1 then aligned.value else second;
      attachmentOffset := aligned.value;
      planned := PlanBlocks(sizes, attachmentOffset, alignment, offsets);
      NoRoomSettles(unit, sizes, alignment, iteration + 1, attachmentOffset);
      if planned.Err? {
        LoopStateFacts(unit, sizes, alignment, iteration + 1, attachmentOffset, first, second);
        OverflowIsFinal(unit, sizes, alignment, attachmentOffset);
        return Err(planned.error);
      }
      fileSize := planned.value;
      iteration := iteration + 1;
    }
    if !stable {
      NoRoomSettles(unit, sizes, alignment, 4, attachmentOffset);
      return Err(InternalError);
    }
    LoopStateFacts(unit, sizes, alignment, iteration, attachmentOffset, first, second);
    if |header| > maxHeaderBytes || |header| > 0xFFFF_FFFF {
      return Err(ResourceLimit);
    }
    return Ok(FileLayout(header, attachmentOffset, offsets[..], fileSize));
  }

  lemma LoopStarts(unit: Unit, sizes: seq<U64>, alignment: U64)
    requires sizes != [] && |sizes| == BlockCount(unit) && 16 <= alignment
    ensures LoopState(unit, sizes, alignment, 0, alignment, alignment, alignment)
  {
    hide NextOffset;
    StartsBelow(unit, sizes, alignment);
    NextOffsetIsAligned(unit, sizes, alignment, alignment);
    assert alignment % alignment == 0 by {
      Mul.DivMod(1, 0, alignment);
    }
  }

  lemma LoopStateFacts(unit: Unit, sizes: seq<U64>, alignment: U64, iteration: int, a: U64, first: U64, second: U64)
    requires sizes != [] && |sizes| == BlockCount(unit) && 0 < alignment
    requires LoopState(unit, sizes, alignment, iteration, a, first, second)
    ensures alignment <= a && a % alignment == 0 && BelowFixedPoints(unit, sizes, alignment, a)
  {
  }

  lemma NextOffsetUnfold(unit: Unit, sizes: seq<U64>, alignment: U64, a: U64, offsets: seq<U64>, end: U64)
    requires sizes != [] && |sizes| == BlockCount(unit) && 0 < alignment
    requires Place(sizes, a, alignment) == Ok(Placement(offsets, end))
    ensures |offsets| == |sizes|
    ensures var header := HeaderText(unit, sizes, offsets);
            NextOffset(unit, sizes, alignment, a)
            == if |header| > MAX_U64 - PREAMBLE_SIZE then Err(Overflow) else AlignUp(PREAMBLE_SIZE + |header|, alignment)
  {
    hide HeaderText, AlignUp;
  }

  /** When the blocks do not fit behind an offset below every consistent layout, there is none. */
  lemma OverflowIsFinal(unit: Unit, sizes: seq<U64>, alignment: U64, a: U64)
    requires sizes != [] && |sizes| == BlockCount(unit) && 16 <= alignment <= a && a % alignment == 0
    requires BelowFixedPoints(unit, sizes, alignment, a)
    requires Place(sizes, a, alignment).Err?
    ensures Place(sizes, a, alignment) == Err(Overflow)
    ensures forall p: U64 :: !IsFixed(unit, sizes, alignment, p)
  {
    PlaceFailsByOverflow(sizes, a, alignment);
    hide HeaderText, Place;
    PassAscends(unit, sizes, alignment, a);
  }
}
