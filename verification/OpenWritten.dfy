/** Every file that the writer emits opens, and its header is read for what it is. */
module OpenWritten {
  import opened Base
  import opened Ranges
  import opened Locations
  import opened HeaderLists
  import opened HeaderDocument
  import opened HeaderEvents
  import opened HeaderDraft
  import opened HeaderPrinted
  import opened HeaderScan
  import opened FileOpen
  import HW = HeaderWritten
  import L = Layout
  import W = Emission

  // ---------------------------------------------------------------- every block is claimed

  /** Every block-backed entry belongs to an image that is there, or to the unit. */
  predicate AllPrinted(unit: L.Unit) {
    forall k | 0 <= k < |unit.entries| && unit.entries[k].Block? && unit.entries[k].image.Some? ::
      unit.entries[k].image.value < |unit.imageAttributes|
  }

  lemma {:induction false} EntryIsChild(u: Printed, k: nat, j: nat)
    requires j <= k < |u.entries|
    ensures TheEntry(k) in Children(u, u.entries[k].image, j)
    decreases k - j
  {
    if j < k {
      EntryIsChild(u, k, j + 1);
    }
  }

  lemma {:induction false} ImageIsThing(u: Printed, i: nat, j: nat)
    requires j <= i < |u.images|
    ensures TheImage(i) in ImageThings(u, j) && forall t | t in Children(u, Some(i), 0) :: t in ImageThings(u, j)
    decreases i - j
  {
    if j < i {
      ImageIsThing(u, i, j + 1);
    }
  }

  /** The entry that has the block with this number. */
  lemma {:induction false} BlockOwner(entries: seq<L.Entry>, b: nat, n: nat) returns (k: nat)
    requires n <= |entries| && b < L.BlockOrdinal(entries, n)
    ensures k < n && entries[k].Block? && L.BlockOrdinal(entries, k) == b
    decreases n
  {
    if entries[n - 1].Block? && L.BlockOrdinal(entries, n - 1) == b {
      k := n - 1;
    } else {
      k := BlockOwner(entries, b, n - 1);
    }
  }

  /** Each block is printed. */
  lemma BlockIsPrinted(u: Printed, unit: L.Unit, b: nat) returns (t: Thing)
    requires HW.SamePlan(u, unit) && AllPrinted(unit) && b < L.BlockCount(unit)
    ensures t in Things(u) && HW.BlockNumber(unit, t) == Some(b)
  {
    if b < |unit.imageAttributes| {
      t := TheImage(b);
      ImageIsThing(u, b, 0);
    } else {
      var k := BlockOwner(unit.entries, b - |unit.imageAttributes|, |unit.entries|);
      t := TheEntry(k);
      EntryIsChild(u, k, 0);
      if u.entries[k].image.Some? {
        ImageIsThing(u, u.entries[k].image.value, 0);
      } else {
        assert t in UnitThings(u);
      }
    }
  }

  lemma {:induction false} ClaimIsThere(u: Printed, things: seq<Thing>, t: Thing)
    requires AllIn(u, things) && t in things
    ensures forall r | r in RangesOf(TagOf(u, t)) :: r in Claims(u, things)
    decreases |things|
  {
    hide RangesOf;
    var front, last := things[..|things| - 1], things[|things| - 1];
    assert things == front + [last];
    if t in front {
      ClaimIsThere(u, front, t);
    }
  }

  /** The claimed ranges and the blocks of the layout are the same set. */
  lemma SameRangesClaimed(u: Printed, unit: L.Unit, sizes: seq<U64>, offsets: seq<U64>, headerEnd: int, fileSize: int)
    requires |sizes| == |offsets| == L.BlockCount(unit) && HW.Shows(u, unit, sizes, offsets) && AllPrinted(unit)
    requires Acceptable(W.RangesOf(sizes, offsets), headerEnd, fileSize)
    ensures forall r :: r in Claims(u, Things(u)) <==> r in W.RangesOf(sizes, offsets)
  {
    var ranges, claims := W.RangesOf(sizes, offsets), Claims(u, Things(u));
    HW.ThingsDiffer(u);
    hide Claims, Things, HW.Shows, HW.BlockNumber, AllPrinted, Acceptable, NoDuplicates;
    HW.ClaimsAreApart(u, unit, sizes, offsets, Things(u), headerEnd, fileSize);
    forall r | r in claims
      ensures r in ranges
    {
      var m :| 0 <= m < |claims| && claims[m] == r;
      assert HW.Claimed(unit, ranges, Things(u), claims[m]);
    }
    forall r | r in ranges
      ensures r in claims
    {
      var b: nat :| b < |ranges| && ranges[b] == r;
      assert HW.SamePlan(u, unit) by {
        PlanIsSame(u, unit, sizes, offsets);
      }
      var t := BlockIsPrinted(u, unit, b);
      HW.OneRange(u, unit, sizes, offsets, t);
      ClaimIsThere(u, Things(u), t);
    }
  }

  lemma PlanIsSame(u: Printed, unit: L.Unit, sizes: seq<U64>, offsets: seq<U64>)
    requires |sizes| == |offsets| == L.BlockCount(unit) && HW.Shows(u, unit, sizes, offsets)
    ensures HW.SamePlan(u, unit)
  {
  }

  lemma SameUnused(a: seq<AttachedRange>, b: seq<AttachedRange>, headerEnd: int, content: Bytes, budget: int)
    requires forall r :: r in a <==> r in b
    ensures UnusedIsFine(a, headerEnd, content, budget) <==> UnusedIsFine(b, headerEnd, content, budget)
  {
    forall x
      ensures Covered(a, x) <==> Covered(b, x)
    {
      CoveredToo(a, b, x);
      CoveredToo(b, a, x);
    }
    assert Uncovered(a, headerEnd, |content|) == Uncovered(b, headerEnd, |content|);
  }

  lemma CoveredToo(a: seq<AttachedRange>, b: seq<AttachedRange>, x: int)
    requires forall r | r in a :: r in b
    ensures Covered(a, x) ==> Covered(b, x)
  {
    if Covered(a, x) {
      var i :| 0 <= i < |a| && Ranges.Holds(a[i], x);
      assert a[i] in b;
    }
  }

  // ---------------------------------------------------------------- what a run claims

  lemma {:induction false} RunClaims(events: seq<Event>, options: HeaderOptions)
    requires RunOf(events, options).Some?
    ensures RunOf(events, options).value.ranges == RangesOfEvents(events)
    decreases |events|
  {
    if events != [] {
      var front := events[..|events| - 1];
      RunClaims(front, options);
      StepClaims(RunOf(front, options).value, events[|events| - 1], options);
    }
  }

  lemma StepClaims(s: State, e: Event, options: HeaderOptions)
    requires StepTaken(s, e, options).Some?
    ensures StepTaken(s, e, options).value.ranges == s.ranges + if e.Start? then RangesOf(e.tag) else []
  {
    hide ElementEnded, ElementStarted, BlockTextTaken, TextAllowed, DraftWithText, ExtensionsWithText, BadAttachment, RangesOf;
  }

  /** The start tags of a printed header claim what its things claim. */
  lemma HeaderClaims(u: Printed, options: HeaderOptions)
    requires Good(u, options) && HasRoom(u, options)
    ensures RangesOfEvents(HeaderOf(u)) == Claims(u, Things(u))
  {
    hide RunOf, Claims, Things, HeaderOf, Good, HasRoom;
    var l := RunHeader(u, options);
    RunClaims(HeaderOf(u), options);
  }

  // ---------------------------------------------------------------- the result

  /** The reader's side of a written file: its parser reports the tags of the header's text, and takes each of them. */
  ghost predicate ReaderFor(o: Opening, u: Printed, unit: L.Unit, layout: L.FileLayout) {
    && o.parser(layout.header) == Some(HeaderOf(u)) && Reports(HeaderOf(u), layout.header)
    && HW.SamePlan(u, unit) && Tokenizes(unit) && AllPrinted(unit) && StartsWith(unit.prologue, "<?xml")
    && Good(u, o.options) && HasRoom(u, o.options) && HW.DifferentNames(u)
  }

  lemma HeaderFacts(unit: L.Unit, sizes: seq<U64>, alignment: U64, layout: L.FileLayout, header: Bytes, blocks: seq<W.BlockData>)
    requires W.Written(unit, sizes, alignment, layout, header, blocks) && StartsWith(unit.prologue, "<?xml")
    ensures |layout.offsets| == |sizes| == |blocks| && layout.header == L.HeaderText(unit, sizes, layout.offsets)
    ensures StartsWith(layout.header, "<?xml") && 0 < |layout.header|
  {
    W.WrittenFileIsAcceptable(unit, sizes, alignment, layout, header, blocks, 0);
    assert layout.header == L.HeaderText(unit, sizes, layout.offsets);
    hide L.Images, L.Children, W.Reachable, Acceptable;
    assert unit.prologue <= layout.header;
    assert layout.header[..5] == unit.prologue[..5];
  }

  /** What is unused in the payload is the padding. */
  lemma UnusedIsPadding(
    o: Opening, u: Printed, unit: L.Unit, sizes: seq<U64>, offsets: seq<U64>, headerEnd: int, image: Bytes)
    requires |sizes| == |offsets| == L.BlockCount(unit) && HW.Shows(u, unit, sizes, offsets) && AllPrinted(unit)
    requires Good(u, o.options) && HasRoom(u, o.options) && Acceptable(W.RangesOf(sizes, offsets), headerEnd, |image|)
    ensures UnusedIsFine(RangesOfEvents(HeaderOf(u)), headerEnd, image, o.maxUnused)
       <==> UnusedIsFine(W.RangesOf(sizes, offsets), headerEnd, image, o.maxUnused)
  {
    hide UnusedIsFine, HW.Shows, Good, HasRoom, HeaderOf, Acceptable, Claims, Things, RangesOfEvents, W.RangesOf, AllPrinted;
    SameRangesClaimed(u, unit, sizes, offsets, headerEnd, |image|);
    HeaderClaims(u, o.options);
    SameUnused(Claims(u, Things(u)), W.RangesOf(sizes, offsets), headerEnd, image, o.maxUnused);
  }

  /**
   A written file opens if and only if its header and the padding between its blocks are within the
   reader's limits; no other header is found in it.
   */
  lemma WrittenFileOpens(
    o: Opening, u: Printed, unit: L.Unit, sizes: seq<U64>, alignment: U64, layout: L.FileLayout, header: Bytes, blocks: seq<W.BlockData>)
    requires W.Written(unit, sizes, alignment, layout, header, blocks)
    requires TextOfBytes(header) == layout.header && |header| <= 0xFFFF_FFFF && ReaderFor(o, u, unit, layout)
    ensures |layout.offsets| == |blocks| == |sizes| && W.Reachable(blocks, layout.offsets, 0, W.HeaderEnd(header))
    ensures var image := W.FileImage(header, blocks, layout.offsets);
            var padding := |image| - W.HeaderEnd(header) - TotalSize(W.RangesOf(sizes, layout.offsets));
            && (OpensWith(o, image, header) <==> |header| <= o.maxHeaderBytes && padding <= o.maxUnused)
            && forall other: Bytes :: OpensWith(o, image, other) ==> other == header
  {
    hide W.FileImage, W.Reachable, Accepts, UnusedIsFine, HW.Shows, Good, HasRoom, HW.DifferentNames, W.BeginsWith, HeaderOf, Acceptable;
    hide RunOf, Things, Reports, Tokenizes, AllPrinted, HW.SamePlan, StartsWith, W.RangesOf, RangesOfEvents, TotalSize, L.HeaderText;
    HeaderFacts(unit, sizes, alignment, layout, header, blocks);
    assert L.BlockCount(unit) == |sizes|;
    hide W.Written, L.BlockCount;
    TextShows(u, unit, sizes, layout.offsets);
    HW.WrittenHeaderIsAccepted(u, unit, sizes, alignment, layout, header, blocks, o.options, o.rules);
    W.WrittenFileIsAcceptable(unit, sizes, alignment, layout, header, blocks, o.maxUnused);
    var image := W.FileImage(header, blocks, layout.offsets);
    W.HeaderIsInPlace(header, blocks, layout.offsets);
    UnusedIsPadding(o, u, unit, sizes, layout.offsets, W.HeaderEnd(header), image);
    OnlyHeader(o, image, header);
  }

  lemma OnlyHeader(o: Opening, image: Bytes, header: Bytes)
    requires W.BeginsWith(image, header)
    ensures forall other: Bytes :: OpensWith(o, image, other) ==> other == header
  {
    hide Accepts, UnusedIsFine;
  }

  lemma ImagesShown(u: Printed, unit: L.Unit, sizes: seq<U64>, offsets: seq<U64>)
    requires |sizes| == |offsets| == L.BlockCount(unit) && HW.Shows(u, unit, sizes, offsets)
    ensures |u.images| == |unit.imageAttributes| <= |offsets|
    ensures forall i: nat | i < |u.images| :: BlockOf(u.images[i]) == BlockLocation(Attachment, offsets[i], sizes[i])
  {
    hide ParseLocation, LocationText, Things;
    forall i: nat | i < |u.images|
      ensures BlockOf(u.images[i]) == BlockLocation(Attachment, offsets[i], sizes[i])
    {
      ImageIsPrinted(u, i);
      assert HW.ShowsAt(TagOf(u, TheImage(i)), HW.BlockNumber(unit, TheImage(i)), sizes, offsets);
      LocationRoundTrip(offsets[i], sizes[i]);
    }
  }

  lemma OpenedDocument(o: Opening, u: Printed, header: Bytes)
    requires o.parser(TextOfBytes(header)) == Some(HeaderOf(u)) && Good(u, o.options) && HasRoom(u, o.options)
    ensures DocumentOf(o, header).Some? && ImagesFollow(u, |u.images|, DocumentOf(o, header).value.draft.images)
  {
    hide RunOf, Good, HasRoom, HeaderOf, Things, Claims, ImagesFollow, Bound, TextOfBytes;
    var l := RunHeader(u, o.options);
  }

  /** The document of such a file has every image at its own place in the file. */
  lemma OpenedImages(o: Opening, u: Printed, unit: L.Unit, sizes: seq<U64>, layout: L.FileLayout, header: Bytes)
    requires |sizes| == |layout.offsets| == L.BlockCount(unit) && layout.header == L.HeaderText(unit, sizes, layout.offsets)
    requires TextOfBytes(header) == layout.header && ReaderFor(o, u, unit, layout)
    ensures DocumentOf(o, header).Some?
    ensures var items := DocumentOf(o, header).value.draft.images.items;
            && |items| == |unit.imageAttributes| <= |layout.offsets|
            && forall i | 0 <= i < |items| :: items[i].block == BlockLocation(Attachment, layout.offsets[i], sizes[i])
  {
    hide DocumentOf, Good, HasRoom, HW.DifferentNames, HW.Shows, Reports, Tokenizes, L.HeaderText, BlockOf, HeaderOf, TextOfBytes;
    TextShows(u, unit, sizes, layout.offsets);
    ImagesShown(u, unit, sizes, layout.offsets);
    OpenedDocument(o, u, header);
  }

  lemma ImageIsPrinted(u: Printed, i: nat)
    requires i < |u.images|
    ensures TheImage(i) in Things(u)
  {
    ImageIsThing(u, i, 0);
  }
}
