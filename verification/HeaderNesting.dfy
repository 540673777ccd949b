/** Where a Property can lose text: only in an element named `xisf` below the root, and there it does. */
module HeaderNesting {
  import opened Base
  import opened HeaderStack
  import opened HeaderLists
  import opened HeaderDraft
  import opened HeaderDocument
  import opened HeaderEvents
  import opened HeaderValues

  // ---------------------------------------------------------------- no inner xisf, no lost text

  /** Only the root is named `xisf`. */
  predicate OneRoot(events: seq<Event>) {
    forall j | 0 <= j < |events| && events[j].Start? && events[j].tag.name == Xisf :: OpenStarts(events[..j]) == []
  }

  /** Where the handlers let in the elements that matter here. */
  predicate PlacedRight(events: seq<Event>, j: nat)
    requires j < |events| && events[j].Start?
  {
    var open := OpenStarts(events[..j]);
    match events[j].tag.name
    case Property => open != [] && var n := events[open[|open| - 1]].tag.name; n == Xisf || n == Image || n == Metadata
    case Image => |open| == 1
    case Metadata => |open| == 1
    case _ => true
  }

  lemma AcceptedIsPlaced(events: seq<Event>, options: HeaderOptions, j: nat)
    requires RunOf(events, options).Some? && j < |events| && events[j].Start?
    ensures PlacedRight(events, j)
  {
    if RunOf(events[..j], options).None? {
      RunStops(events, j, options);
    }
    RunAdvances(events, j, options);
    if RunOf(events[..j + 1], options).None? {
      RunStops(events, j + 1, options);
    }
    AcceptedIsNested(events[..j], options);
    var s := RunOf(events[..j], options).value;
    var open := OpenStarts(events[..j]);
    NamesOfFront(events, open, j);
    StartIsPlaced(s, events[j].tag, options);
    hide RunOf, StartTaken, OpenStarts, Nested;
    if open != [] {
      LastName(events, open);
    }
  }

  lemma StartIsPlaced(s: State, tag: Tag, options: HeaderOptions)
    requires StartTaken(s, tag, options).Some?
    ensures var outer := s.stack.elements;
            match tag.name
            case Property => outer != [] && (Top(outer) == Xisf || Top(outer) == Image || Top(outer) == Metadata)
            case Image => |outer| == 1
            case Metadata => |outer| == 1
            case _ => true
  {
    hide EntryAdded, ImageAdded, RangesOf, BadAttachment, ReferenceStarted, TableStarted, StructureStarted, FieldStarted, RowStarted;
    hide CellStarted, ThumbnailStarted, AncillaryStarted, ProfileStarted, DataStarted, ExtensionNoted;
  }

  /** What is open at `k` and started before `e` is open at `e`. */
  lemma {:induction false} StillOpen(events: seq<Event>, p: nat, e: nat, k: nat)
    requires p < e <= k <= |events| && IsOpen(events, p, k)
    ensures IsOpen(events, p, e)
    decreases k
  {
    if e < k {
      OpenStartsStep(events, k - 1);
      hide OpenStarts;
      StillOpen(events, p, e, k - 1);
    }
  }

  /** Open elements are listed by where they started, and the first of them is a root. */
  lemma {:induction false} OpenStartsAscend(events: seq<Event>, k: nat)
    requires k <= |events|
    ensures var open := OpenStarts(events[..k]);
            Increasing(open) && (open != [] ==> open[0] < |events| && OpenStarts(events[..open[0]]) == [])
    decreases k
  {
    if k == 0 {
      assert events[..0] == [];
    } else {
      OpenStartsAscend(events, k - 1);
      OpenStartsStep(events, k - 1);
      hide OpenStarts;
      var before, after := OpenStarts(events[..k - 1]), OpenStarts(events[..k]);
      assert forall m | 0 <= m < |before| :: before[m] in before;
    }
  }

  predicate AllPlaced(events: seq<Event>) {
    forall j | 0 <= j < |events| && events[j].Start? :: PlacedRight(events, j)
  }

  /** A Property that starts inside another one stands in an element named `xisf` that is below the root. */
  lemma NestedNeedsRoot(events: seq<Event>, p: nat, j: nat)
    requires AllPlaced(events) && p < j < |events| && events[p].Start? && events[j].Start?
    requires events[p].tag.name == Property && events[j].tag.name == Property && IsOpen(events, p, j)
    ensures !OneRoot(events)
  {
    var open := OpenStarts(events[..j]);
    OpenStartsAscend(events, j);
    OpenStartsStep(events, j);
    assert PlacedRight(events, j) && PlacedRight(events, p);
    var t := open[|open| - 1];
    assert t in open && p < t by {
      var m :| 0 <= m < |open| && open[m] == p;
    }
    StillOpen(events, p, t, j);
    InnerParent(events, p, t);
  }

  lemma InnerParent(events: seq<Event>, p: nat, t: nat)
    requires AllPlaced(events) && p < t < |events| && events[p].Start? && events[t].Start?
    requires events[p].tag.name == Property && IsOpen(events, p, t)
    requires var n := events[t].tag.name; n == Xisf || n == Image || n == Metadata
    ensures events[t].tag.name == Xisf && !OneRoot(events)
  {
    var outer := OpenStarts(events[..t]);
    OpenStartsAscend(events, t);
    assert PlacedRight(events, t) && PlacedRight(events, p);
    hide OpenStarts;
    assert OpenStarts(events[..p]) != [];
    var m :| 0 <= m < |outer| && outer[m] == p;
    assert m != 0;
  }

  lemma AcceptedIsAllPlaced(events: seq<Event>, options: HeaderOptions)
    requires RunOf(events, options).Some?
    ensures AllPlaced(events)
  {
    hide RunOf, PlacedRight;
    forall j | 0 <= j < |events| && events[j].Start?
      ensures PlacedRight(events, j)
    {
      AcceptedIsPlaced(events, options, j);
    }
  }

  /** Without such an element every Property gets all its text. */
  lemma OneRootKeepsText(events: seq<Event>, options: HeaderOptions, p: nat)
    requires RunOf(events, options).Some? && OneRoot(events)
    requires p < |events| && events[p].Start? && events[p].tag.name == Property
    ensures !HasLateText(events, p)
  {
    AcceptedIsNested(events, options);
    AcceptedIsAllPlaced(events, options);
    hide RunOf;
    if HasLateText(events, p) {
      LateTextNeedsRoot(events, p);
    }
  }

  lemma LateTextNeedsRoot(events: seq<Event>, p: nat)
    requires Nested(events) && AllPlaced(events) && HasLateText(events, p)
    requires p < |events| && events[p].Start? && events[p].tag.name == Property
    ensures !OneRoot(events)
  {
    hide AllPlaced, OneRoot, OpenStarts, EndsProperty, Nested, Elsewhere, Interposed, IsOpen;
    var k: nat :| p < k < |events| && IsLate(events, p, k);
    var e: nat :| p < e < k && EndsProperty(events[e]);
    NestedEndNeedsRoot(events, p, e, k);
  }

  lemma NestedEndNeedsRoot(events: seq<Event>, p: nat, e: nat, k: nat)
    requires Nested(events) && AllPlaced(events) && p < e < k < |events| && EndsProperty(events[e]) && IsOpen(events, p, k)
    requires events[p].Start? && events[p].tag.name == Property
    ensures !OneRoot(events)
  {
    EndIsNested(events, p, e, k);
    hide AllPlaced, OneRoot, OpenStarts, Nested;
    var open := OpenStarts(events[..e]);
    NestedNeedsRoot(events, p, open[|open| - 1]);
  }

  lemma EndIsNested(events: seq<Event>, p: nat, e: nat, k: nat)
    requires Nested(events) && p < e < k <= |events| && EndsProperty(events[e]) && IsOpen(events, p, k)
    ensures var open := OpenStarts(events[..e]);
            && open != [] && p < open[|open| - 1] < e
            && events[open[|open| - 1]].Start? && events[open[|open| - 1]].tag.name == Property
            && IsOpen(events, p, open[|open| - 1])
  {
    var open := OpenStarts(events[..e]);
    StillOpen(events, p, e + 1, k);
    OpenStartsStep(events, e);
    OpenStartsAscend(events, e);
    hide OpenStarts;
    var j := open[|open| - 1];
    assert j in open;
    var m :| 0 <= m < |open| - 1 && open[m] == p;
    StillOpen(events, p, j, e);
  }
}
