/** The header of a written file: the reader accepts it, because its names differ and its blocks lie apart. */
module HeaderWritten {
  import opened Base
  import opened HeaderStack
  import opened Locations
  import opened Ranges
  import opened HeaderLists
  import opened HeaderDraft
  import opened HeaderDocument
  import opened HeaderEvents
  import opened HeaderPrinted
  import L = Layout
  import W = Emission

  // ---------------------------------------------------------------- everything is printed once

  lemma JoinDistinct(a: seq<Thing>, b: seq<Thing>)
    requires NoDuplicates(a) && NoDuplicates(b) && forall t | t in a :: t !in b
    ensures NoDuplicates(a + b)
  {
    assert forall m | 0 <= m < |a| :: a[m] in a;
  }

  lemma {:induction false} ChildrenDiffer(u: Printed, image: Option<nat>, k: nat)
    ensures NoDuplicates(Children(u, image, k))
    ensures forall t | t in Children(u, image, k) :: t.TheEntry? && k <= t.k < |u.entries| && u.entries[t.k].image == image
    decreases |u.entries| - k
  {
    if k < |u.entries| {
      ChildrenDiffer(u, image, k + 1);
      if u.entries[k].image == image {
        JoinDistinct([TheEntry(k)], Children(u, image, k + 1));
      }
    }
  }

  /** An image from number `i` on, or an entry of one. */
  predicate FromImage(u: Printed, i: nat, t: Thing) {
    match t
    case TheImage(j) => i <= j
    case TheEntry(k) => k < |u.entries| && u.entries[k].image.Some? && i <= u.entries[k].image.value
    case _ => false
  }

  lemma {:induction false} ImageThingsDiffer(u: Printed, i: nat)
    ensures NoDuplicates(ImageThings(u, i)) && forall t | t in ImageThings(u, i) :: FromImage(u, i, t)
    decreases |u.images| - i
  {
    if i < |u.images| {
      var children, rest := Children(u, Some(i), 0), ImageThings(u, i + 1);
      ImageThingsDiffer(u, i + 1);
      ChildrenDiffer(u, Some(i), 0);
      JoinDistinct(children, rest);
      JoinDistinct([TheImage(i)], children + rest);
    }
  }

  lemma ThingsDiffer(u: Printed)
    ensures NoDuplicates(Things(u))
  {
    var children := Children(u, None, 0);
    ImageThingsDiffer(u, 0);
    ChildrenDiffer(u, None, 0);
    JoinDistinct([TheApplication], children);
    JoinDistinct([TheTime], [TheApplication] + children);
    hide NoDuplicates;
    JoinDistinct(ImageThings(u, 0), UnitThings(u));
  }

  // ---------------------------------------------------------------- so names differ

  /** What the writer checks: no identifier comes twice for one image or for the unit. */
  ghost predicate DifferentNames(u: Printed) {
    forall s, t | s != t && IsIn(u, s) && IsIn(u, t) && TagOf(u, s).name == Property && TagOf(u, t).name == Property ::
      ImageOf(u, s) != ImageOf(u, t) || TagOf(u, s).id != TagOf(u, t).id
  }

  lemma {:induction false} NamesDiffer(u: Printed, things: seq<Thing>)
    requires AllIn(u, things) && NoDuplicates(things) && DifferentNames(u)
    ensures NoDuplicates(NamesOf(u, things))
    ensures forall n | n in NamesOf(u, things) ::
              exists t :: t in things && IsIn(u, t) && TagOf(u, t).name == Property && n == Named(ImageOf(u, t), TagOf(u, t).id)
    decreases |things|
  {
    if things != [] {
      var front, t := things[..|things| - 1], things[|things| - 1];
      assert things == front + [t];
      NamesDiffer(u, front);
      assert forall s | s in front :: s != t;
      assert TagOf(u, t).name == Property ==> Named(ImageOf(u, t), TagOf(u, t).id) !in NamesOf(u, front);
    }
  }

  // ---------------------------------------------------------------- and so do blocks

  /** The number of a thing's block in the file. */
  function BlockNumber(unit: L.Unit, t: Thing): (b: Option<nat>)
    ensures b.Some? ==> b.value < L.BlockCount(unit)
  {
    match t
    case TheImage(i) => if i < |unit.imageAttributes| then Some(i) else None
    case TheEntry(k) =>
      if k < |unit.entries| && unit.entries[k].Block? then
        L.OrdinalInRange(unit.entries, k, |unit.entries|);
        Some(|unit.imageAttributes| + L.BlockOrdinal(unit.entries, k))
      else None
    case _ => None
  }

  lemma BlocksDiffer(unit: L.Unit, s: Thing, t: Thing)
    requires s != t && BlockNumber(unit, s).Some?
    ensures BlockNumber(unit, s) != BlockNumber(unit, t)
  {
    if s.TheEntry? && t.TheEntry? && BlockNumber(unit, t).Some? {
      if s.k < t.k {
        L.OrdinalInRange(unit.entries, s.k, t.k);
      } else {
        L.OrdinalInRange(unit.entries, t.k, s.k);
      }
    }
  }

  /** The same images and entries, each entry at the same image. */
  predicate SamePlan(u: Printed, unit: L.Unit) {
    && |u.images| == |unit.imageAttributes| && |u.entries| == |unit.entries|
    && forall k | 0 <= k < |u.entries| :: u.entries[k].image == unit.entries[k].image
  }

  /** Everything that is printed shows the place of its own block. */
  ghost predicate Shows(u: Printed, unit: L.Unit, sizes: seq<U64>, offsets: seq<U64>)
    requires |sizes| == |offsets| == L.BlockCount(unit)
  {
    SamePlan(u, unit) && forall t | t in Things(u) :: ShowsAt(TagOf(u, t), BlockNumber(unit, t), sizes, offsets)
  }

  predicate ShowsAt(tag: Tag, block: Option<nat>, sizes: seq<U64>, offsets: seq<U64>)
    requires |sizes| == |offsets| && (block.Some? ==> block.value < |sizes|)
  {
    if block.Some? then tag.location == Some(LocationText(offsets[block.value], sizes[block.value]))
    else BlockOf(tag).kind != Attachment
  }

  lemma OneRange(u: Printed, unit: L.Unit, sizes: seq<U64>, offsets: seq<U64>, t: Thing)
    requires |sizes| == |offsets| == L.BlockCount(unit) && Shows(u, unit, sizes, offsets) && t in Things(u)
    ensures var b := BlockNumber(unit, t);
            RangesOf(TagOf(u, t)) == if b.Some? then [W.RangesOf(sizes, offsets)[b.value]] else []
  {
    hide ParseLocation, LocationText;
    assert ShowsAt(TagOf(u, t), BlockNumber(unit, t), sizes, offsets);
    var b := BlockNumber(unit, t);
    if b.Some? {
      LocationRoundTrip(offsets[b.value], sizes[b.value]);
    }
  }

  /** One of these things has this range as its block. */
  predicate Claimed(unit: L.Unit, ranges: seq<AttachedRange>, things: seq<Thing>, r: AttachedRange)
    requires |ranges| == L.BlockCount(unit)
  {
    exists m :: 0 <= m < |things| && BlockNumber(unit, things[m]).Some? && ranges[BlockNumber(unit, things[m]).value] == r
  }

  lemma {:induction false} ClaimsAreApart(
    u: Printed, unit: L.Unit, sizes: seq<U64>, offsets: seq<U64>, things: seq<Thing>, headerEnd: int, fileSize: int)
    requires |sizes| == |offsets| == L.BlockCount(unit) && Shows(u, unit, sizes, offsets)
    requires AllIn(u, things) && NoDuplicates(things) && forall t | t in things :: t in Things(u)
    requires Acceptable(W.RangesOf(sizes, offsets), headerEnd, fileSize)
    ensures Acceptable(Claims(u, things), headerEnd, fileSize)
    ensures forall m | 0 <= m < |Claims(u, things)| :: Claimed(unit, W.RangesOf(sizes, offsets), things, Claims(u, things)[m])
    decreases |things|
  {
    hide Shows, BlockNumber, RangesOf, TagOf, L.BlockCount, NoDuplicates, W.RangesOf;
    if things != [] {
      var front, t, ranges := things[..|things| - 1], things[|things| - 1], W.RangesOf(sizes, offsets);
      assert NoDuplicates(front) && t !in front by {
        LastDiffers(things);
      }
      ClaimsAreApart(u, unit, sizes, offsets, front, headerEnd, fileSize);
      OneRange(u, unit, sizes, offsets, t);
      MoreClaims(unit, ranges, front, t, Claims(u, front), headerEnd, fileSize);
    }
  }

  lemma LastDiffers(things: seq<Thing>)
    requires things != [] && NoDuplicates(things)
    ensures NoDuplicates(things[..|things| - 1]) && things[|things| - 1] !in things[..|things| - 1]
  {
  }

  lemma MoreClaims(
    unit: L.Unit, ranges: seq<AttachedRange>, front: seq<Thing>, t: Thing, claims: seq<AttachedRange>, headerEnd: int, fileSize: int)
    requires |ranges| == L.BlockCount(unit) && Acceptable(ranges, headerEnd, fileSize) && Acceptable(claims, headerEnd, fileSize)
    requires t !in front && forall m | 0 <= m < |claims| :: Claimed(unit, ranges, front, claims[m])
    ensures var b := BlockNumber(unit, t);
            var more := claims + if b.Some? then [ranges[b.value]] else [];
            && Acceptable(more, headerEnd, fileSize)
            && forall m | 0 <= m < |more| :: Claimed(unit, ranges, front + [t], more[m])
  {
    var b := BlockNumber(unit, t);
    var more := claims + if b.Some? then [ranges[b.value]] else [];
    forall m | 0 <= m < |more|
      ensures Claimed(unit, ranges, front + [t], more[m])
      ensures m < |claims| && b.Some? ==> Apart(more[m], ranges[b.value])
    {
      if m < |claims| {
        assert Claimed(unit, ranges, front, claims[m]);
        var j :| 0 <= j < |front| && BlockNumber(unit, front[j]).Some? && ranges[BlockNumber(unit, front[j]).value] == claims[m];
        assert (front + [t])[j] == front[j];
        BlocksDiffer(unit, front[j], t);
      } else {
        assert (front + [t])[|front|] == t;
      }
    }
  }

  // ---------------------------------------------------------------- the header of a written file

  /** The reader accepts the header that the writer prints for a layout of acceptable blocks, within its limits. */
  lemma ShownIsAccepted(
    u: Printed, unit: L.Unit, sizes: seq<U64>, offsets: seq<U64>, options: HeaderOptions, rules: ValueRules, headerEnd: int, fileSize: int)
    requires |sizes| == |offsets| == L.BlockCount(unit) && Shows(u, unit, sizes, offsets)
    requires Good(u, options) && HasRoom(u, options) && DifferentNames(u)
    requires Acceptable(W.RangesOf(sizes, offsets), headerEnd, fileSize)
    ensures Accepts(HeaderOf(u), options, rules, headerEnd, fileSize)
  {
    hide Good, HasRoom, Accepts, HeaderOf, Acceptable, Shows, L.BlockCount, NoDuplicates;
    ThingsDiffer(u);
    NamesDiffer(u, Things(u));
    ClaimsAreApart(u, unit, sizes, offsets, Things(u), headerEnd, fileSize);
    PrintedIsAccepted(u, options, rules, headerEnd, fileSize);
  }

  /** So the header of every written file is accepted. */
  lemma WrittenHeaderIsAccepted(
    u: Printed, unit: L.Unit, sizes: seq<U64>, alignment: U64, layout: L.FileLayout, header: Bytes, blocks: seq<W.BlockData>,
    options: HeaderOptions, rules: ValueRules)
    requires W.Written(unit, sizes, alignment, layout, header, blocks) && |layout.offsets| == |sizes|
    requires Shows(u, unit, sizes, layout.offsets) && DifferentNames(u)
    requires Good(u, options) && HasRoom(u, options)
    ensures Accepts(HeaderOf(u), options, rules, W.HeaderEnd(header), layout.fileSize)
  {
    hide Good, HasRoom, Accepts, HeaderOf, Acceptable, Shows, L.BlockCount, DifferentNames;
    W.WrittenFileIsAcceptable(unit, sizes, alignment, layout, header, blocks, 0);
    ShownIsAccepted(u, unit, sizes, layout.offsets, options, rules, W.HeaderEnd(header), layout.fileSize);
  }
}
