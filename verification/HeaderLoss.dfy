/** A header whose Property loses text: the events around an element named `xisf` that holds another Property. */
module HeaderLoss {
  import opened Base
  import opened HeaderStack
  import opened Locations
  import opened Ranges
  import opened HeaderLists
  import opened HeaderDraft
  import opened HeaderDocument
  import opened HeaderEvents
  import opened HeaderValues
  import opened HeaderSteps
  import opened HeaderPrinted

  function PlainTag(name: Name, id: string, kind: string, value: Option<string>, role: Role): Tag {
    Tag(name, 3, 0, NoFault, "", id, None, None, value, false, role, kind, None, None, None)
  }

  const Root: Tag := PlainTag(Xisf, "", "", None, NoRole)
  const Outer: Tag := PlainTag(Property, "XISF:Description", "String", None, NoRole)
  const Inner: Tag := PlainTag(Property, "Inner", "Int32", Some("1"), NoRole)

  /** The mandatory metadata, and nothing else. */
  const Empty: Printed := Printed(
    Root, [], PlainTag(Metadata, "", "", None, NoRole),
    PrintedEntry(PlainTag(Property, "XISF:CreationTime", "TimePoint", Some("2024-01-01T00:00:00Z"), CreationTime), "", None),
    PrintedEntry(PlainTag(Property, "XISF:CreatorApplication", "String", None, CreatorApplication), "x", None),
    [])

  /** The texts `a` and `b` around an element named `xisf` with a Property in it. */
  function Interrupted(a: string, b: string): seq<Event> {
    [Text(a, false)] + (Element(Root, EntryEvents(Inner, "")) + [Text(b, false)])
  }

  /** A header whose description is interrupted. */
  function LossyHeader(a: string, b: string): seq<Event> {
    Element(Root, Element(Empty.metadata, UnitEvents(Empty) + Element(Outer, Interrupted(a, b))))
  }

  predicate Roomy(options: HeaderOptions, a: string) {
    && options.maxDepth >= 5 && options.maxNodes >= 7 && options.maxAttributes >= 3
    && options.maxMetadata >= 4 && options.maxMetadataValue >= 1 && options.maxMetadataValue >= |a|
  }

  lemma EmptyIsGood(options: HeaderOptions)
    requires Roomy(options, "")
    ensures Good(Empty, options)
  {
  }

  lemma EmptyThings()
    ensures UnitThings(Empty) == [TheTime, TheApplication]
    ensures NamesOf(Empty, UnitThings(Empty)) == [Named(None, "XISF:CreationTime"), Named(None, "XISF:CreatorApplication")]
    ensures Claims(Empty, UnitThings(Empty)) == []
  {
    assert Children(Empty, None, 0) == [];
    OneThing(Empty, TheTime);
    OneThing(Empty, TheApplication);
    NamesJoin(Empty, [TheTime], [TheApplication]);
    ClaimsJoin(Empty, [TheTime], [TheApplication]);
    assert [TheTime] + [TheApplication] == UnitThings(Empty);
  }

  // ---------------------------------------------------------------- running the interrupted Property

  /** A state inside these elements, with no images and these entries. */
  function At(names: seq<Name>, nodes: nat, x: Entries): State {
    Steady(names, nodes, [], SteadyDraft(Nothing.images, x))
  }

  const InMetadata: seq<Name> := [Xisf, Metadata]
  const InOuter: seq<Name> := [Xisf, Metadata, Property]
  const InInnerRoot: seq<Name> := [Xisf, Metadata, Property, Xisf]

  /** The entries while the outer Property is open. */
  function Opened(x: Entries, text: string): Entries {
    EntryOpenDraft(Outer, InMetadata, Nothing.images, x, text).metadata
  }

  /** The entries once the inner Property has ended: the outer one has the text so far, and none is open. */
  function Lost(x: Entries, a: string): Entries {
    EntryDone(Opened(x, a), Inner, "", false, None)
  }

  lemma OuterOpens(x: Entries, a: string, nodes: nat, options: HeaderOptions)
    requires Roomy(options, a) && |x.items| < options.maxMetadata && |x.events| < options.maxMetadata && nodes < options.maxNodes
    ensures MayEnter(Outer, InMetadata, nodes, options) && RangesOf(Outer) == [] && NoneOpen(SteadyDraft(Nothing.images, x).encoded)
    ensures KindStarted(InMetadata, Outer, SteadyDraft(Nothing.images, x), options) == Some(SteadyDraft(Nothing.images, Opened(x, "")))
  {
    assert EntryAdmitted(x, Outer, true, true, None, options);
    assert EntryOpenDraft(Outer, InMetadata, Nothing.images, x, "") == SteadyDraft(Nothing.images, Opened(x, ""));
    hide EntryOpenDraft, Opened, EntryAdmitted, KindStarted;
    EntryBegins(Outer, InMetadata, Nothing.images, x, options);
  }

  lemma OpenedTakes(x: Entries, a: string, options: HeaderOptions)
    requires Roomy(options, a)
    ensures var y := Opened(x, "");
            && y.open.Some? && y.open.value < |y.items| && EntryAllows(y, a, options) && WithEntryText(y, a) == Opened(x, a)
            && !RefusesText(InOuter, SteadyDraft(Nothing.images, y), |InOuter|)
  {
    EntryTakes(Outer, InMetadata, Nothing.images, x, a, options);
    EntryIsCalm(Outer, InMetadata, Nothing.images, x);
    assert InMetadata + [Property] == InOuter;
    assert EntryOpenDraft(Outer, InMetadata, Nothing.images, x, "") == SteadyDraft(Nothing.images, Opened(x, ""));
    assert EntryOpenDraft(Outer, InMetadata, Nothing.images, x, a) == SteadyDraft(Nothing.images, Opened(x, a));
  }

  lemma FirstText(x: Entries, a: string, nodes: nat, options: HeaderOptions)
    requires Roomy(options, a) && a != ""
    ensures RunFrom(At(InOuter, nodes, Opened(x, "")), [Text(a, false)], options) == Some(At(InOuter, nodes, Opened(x, a)))
  {
    OpenedTakes(x, a, options);
    hide RunFrom, EntryOpenDraft, Opened, EntryAllows, WithEntryText, RefusesText, TextTaken;
    SteadyText(a, false, InOuter, nodes, [], SteadyDraft(Nothing.images, Opened(x, "")), options);
    RunOne(At(InOuter, nodes, Opened(x, "")), Text(a, false), options);
  }

  lemma InnerReads(y: Entries, nodes: nat, options: HeaderOptions)
    requires Roomy(options, "") && |y.items| < options.maxMetadata && nodes + 1 < options.maxNodes
    ensures RunFrom(At(InOuter, nodes, y), Element(Root, EntryEvents(Inner, "")), options)
         == Some(At(InOuter, nodes + 2, EntryDone(y, Inner, "", false, None)))
  {
    hide RunFrom, StepTaken, Steady, EntryDone, EntryAdmitted, EntryMayStand, MayEnter, RangesOf, KindStarted, ElementEnded, SteadyDraft;
    hide NoneOpen, CurrentImage, Element, EntryEvents;
    var z, names := EntryDone(y, Inner, "", false, None), InInnerRoot;
    var none: seq<AttachedRange> := [];
    InnerIsAdmitted(y, nodes, options);
    assert InOuter + [Xisf] == names && Parent(names) != Metadata && none + none == none;
    RunEntry(Inner, "", names, nodes + 1, [], Nothing.images, y, options);
    SteadyElement(Root, EntryEvents(Inner, ""), InOuter, nodes, [], [], nodes + 2, SteadyDraft(Nothing.images, y),
                  SteadyDraft(Nothing.images, y), SteadyDraft(Nothing.images, z), SteadyDraft(Nothing.images, z), options);
  }

  lemma InnerIsAdmitted(y: Entries, nodes: nat, options: HeaderOptions)
    requires Roomy(options, "") && |y.items| < options.maxMetadata && nodes + 1 < options.maxNodes
    ensures EntryMayStand(Inner, InInnerRoot) && MayEnter(Inner, InInnerRoot, nodes + 1, options) && RangesOf(Inner) == []
    ensures EntryAdmitted(y, Inner, true, false, None, options) && CurrentImage(SteadyDraft(Nothing.images, y)) == None
    ensures MayEnter(Root, InOuter, nodes, options) && RangesOf(Root) == [] && NoneOpen(SteadyDraft(Nothing.images, y).encoded)
    ensures forall d: Draft :: KindStarted(InOuter, Root, d, options) == Some(d) && ElementEnded(Xisf, d, options) == Some(d)
  {
  }

  /** With no Property open, text inside the outer one is passed over. */
  lemma LateText(y: Entries, b: string, nodes: nat, options: HeaderOptions)
    requires b != "" && y.open.None?
    ensures RunFrom(At(InOuter, nodes, y), [Text(b, false)], options) == Some(At(InOuter, nodes, y))
  {
    var d := SteadyDraft(Nothing.images, y);
    assert NoneOpen(d.encoded) && d.tables.openCell.None? && TablesOpen(d.tables) && !RefusesText(InOuter, d, |InOuter|);
    hide TextTaken, RefusesText, NoneOpen, TablesOpen;
    SteadyText(b, false, InOuter, nodes, [], d, options);
    RunOne(At(InOuter, nodes, y), Text(b, false), options);
  }

  lemma OuterCloses(y: Entries, options: HeaderOptions)
    requires y.open.None?
    ensures ElementEnded(Property, SteadyDraft(Nothing.images, y), options) == Some(SteadyDraft(Nothing.images, y))
  {
  }

  lemma LostIs(x: Entries, a: string)
    ensures Lost(x, a).open.None? && |Opened(x, a).items| == |x.items| + 1
  {
  }

  lemma InterruptedRuns(x: Entries, a: string, b: string, nodes: nat, options: HeaderOptions)
    requires Roomy(options, a) && a != "" && b != "" && |x.items| + 1 < options.maxMetadata && nodes + 1 < options.maxNodes
    ensures RunFrom(At(InOuter, nodes, Opened(x, "")), Interrupted(a, b), options) == Some(At(InOuter, nodes + 2, Lost(x, a)))
  {
    hide RunFrom, StepTaken, At, Element, EntryEvents, Opened, EntryDone;
    LostIs(x, a);
    FirstText(x, a, nodes, options);
    InnerReads(Opened(x, a), nodes, options);
    LateText(Lost(x, a), b, nodes + 2, options);
    var inner, late := Element(Root, EntryEvents(Inner, "")), [Text(b, false)];
    RunAppend(At(InOuter, nodes, Opened(x, a)), inner, late, options);
    RunAppend(At(InOuter, nodes, Opened(x, "")), [Text(a, false)], inner + late, options);
  }

  /** The whole outer Property. */
  lemma OuterReads(x: Entries, a: string, b: string, nodes: nat, options: HeaderOptions)
    requires Roomy(options, a) && a != "" && b != "" && |x.items| + 1 < options.maxMetadata && nodes + 2 < options.maxNodes
    requires |x.events| < options.maxMetadata
    ensures RunFrom(At(InMetadata, nodes, x), Element(Outer, Interrupted(a, b)), options) == Some(At(InMetadata, nodes + 3, Lost(x, a)))
  {
    hide RunFrom, StepTaken, Steady, EntryDone, MayEnter, RangesOf, KindStarted, ElementEnded, SteadyDraft, NoneOpen, Element, EntryEvents;
    hide Interrupted, Opened;
    var none: seq<AttachedRange> := [];
    OuterOpens(x, a, nodes, options);
    InterruptedRuns(x, a, b, nodes + 1, options);
    LostIs(x, a);
    OuterCloses(Lost(x, a), options);
    assert InMetadata + [Property] == InOuter && none + none == none;
    SteadyElement(Outer, Interrupted(a, b), InMetadata, nodes, [], [], nodes + 3, SteadyDraft(Nothing.images, x),
                  SteadyDraft(Nothing.images, Opened(x, "")), SteadyDraft(Nothing.images, Lost(x, a)),
                  SteadyDraft(Nothing.images, Lost(x, a)), options);
  }

  // ---------------------------------------------------------------- running the header

  /** The mandatory entries, as they are when the outer Property begins. */
  predicate Ready(x: Entries) {
    && Bound(x) && |x.items| == 2 && x.elements == 1 && x.creationTime && x.creatorApplication
    && NamesIn(x.items) == [Named(None, "XISF:CreationTime"), Named(None, "XISF:CreatorApplication")]
  }

  lemma MandatoryReads(options: HeaderOptions) returns (x: Entries)
    requires Roomy(options, "")
    ensures Ready(x)
    ensures RunFrom(At(InMetadata, 2, Nothing.entries.(elements := 1)), UnitEvents(Empty), options) == Some(At(InMetadata, 4, x))
  {
    EmptyIsGood(options);
    EmptyThings();
    hide Good, RunFrom, StepTaken, Steady, SteadyDraft, UnitEvents, UnitThings, NamesOf, Claims;
    var m := Nothing.(entries := Nothing.entries.(elements := 1));
    var n := RunUnit(Empty, 2, [], m, options);
    var none: seq<AttachedRange> := [];
    assert none + none == none && NamesIn([]) + NamesOf(Empty, UnitThings(Empty)) == NamesOf(Empty, UnitThings(Empty));
    x := n.entries;
  }

  lemma InsideReads(a: string, b: string, options: HeaderOptions) returns (x: Entries)
    requires Roomy(options, a) && a != "" && b != ""
    ensures Ready(x)
    ensures RunFrom(At(InMetadata, 2, Nothing.entries.(elements := 1)), UnitEvents(Empty) + Element(Outer, Interrupted(a, b)), options)
         == Some(At(InMetadata, 7, Lost(x, a)))
  {
    hide RunFrom, StepTaken, At, UnitEvents, EntryDone, Opened, Element, Interrupted, Bound, NamesIn;
    x := MandatoryReads(options);
    assert |x.events| == 2 by {
      BoundLength(x);
    }
    OuterReads(x, a, b, 4, options);
    RunAppend(At(InMetadata, 2, Nothing.entries.(elements := 1)), UnitEvents(Empty), Element(Outer, Interrupted(a, b)), options);
  }

  lemma BoundLength(x: Entries)
    requires Bound(x)
    ensures |x.events| == |x.items|
  {
  }

  lemma HeaderReads(a: string, b: string, options: HeaderOptions) returns (x: Entries)
    requires Roomy(options, a) && a != "" && b != ""
    ensures Ready(x)
    ensures RunOf(LossyHeader(a, b), options)
         == Some(State(0, 7, true, true, Stack([], []), Extensions([], 0, 0), [], SteadyDraft(Nothing.images, Lost(x, a))))
  {
    NothingIsEmpty();
    assert RangesOf(Root) == [] && !BadAttachment(Root);
    hide StepTaken, RunFrom, SteadyDraft, Element, UnitEvents, StartTaken, EndTaken, EmptyDraft, RunOf, BadAttachment, Ready, EntryDone,
        Opened;
    hide Interrupted, RangesOf;
    x := InsideReads(a, b, options);
    EmptyIsGood(options);
    hide Good;
    MetadataReads(Empty, UnitEvents(Empty) + Element(Outer, Interrupted(a, b)), 1, [], 7, [], Nothing, Nothing.(entries := Lost(x, a)),
        options);
    SteadyRoot(Root, options);
    RootCloses(7, [], Nothing.(entries := Lost(x, a)), options);
    RunElement(Beginning, Root, Element(Empty.metadata, UnitEvents(Empty) + Element(Outer, Interrupted(a, b))),
               At([Xisf], 1, Nothing.entries), At([Xisf], 7, Lost(x, a)), options);
    RunIsRunFrom(LossyHeader(a, b), options);
  }

  // ---------------------------------------------------------------- the result

  /** The third of four entries is the description, with this value. */
  predicate Truncated(items: seq<Entry>, a: string) {
    |items| == 4 && items[2].form == CharacterData && items[2].name == "XISF:Description" && items[2].value == a
  }

  /** The outer Property with the text `a`, and behind it the inner one. */
  lemma LostExtends(x: Entries, a: string, options: HeaderOptions)
    requires Ready(x) && Roomy(options, a)
    ensures var whole, y := EntryDone(x, Outer, a, true, None), Lost(x, a);
            && Bound(whole) && Extends(whole, y) && SameRoles(x, whole) && whole.elements == 1 && Truncated(y.items, a)
            && NamesIn(whole.items) == NamesIn(x.items) + [Named(None, "XISF:Description")]
  {
    EntryIsDone(PrintedEntry(Outer, a, None), NoRole, x, None, options);
    hide Bound, NamesIn;
  }

  /** The same events, one by one. */
  function Listed(a: string, b: string): seq<Event> {
    [Start(Root), Start(Empty.metadata), Start(Empty.creationTime.tag), End(Property), Start(Empty.creatorApplication.tag),
     Text("x", false),
     End(Property), Start(Outer), Text(a, false), Start(Root), Start(Inner), End(Property), End(Xisf), Text(b, false), End(Property),
     End(Metadata), End(Xisf)]
  }

  lemma LossyIsListed(a: string, b: string)
    ensures LossyHeader(a, b) == Listed(a, b)
  {
    assert ChildEvents(Empty, None, 0) == [];
  }

  /** An element with at most one text in it leaves the open elements as they were. */
  lemma ClosedAgain(events: seq<Event>, k: nat, open: seq<nat>)
    requires k + 2 < |events| && OpenStarts(events[..k]) == open && events[k].Start?
    requires events[k + 1].End? || (events[k + 1].Text? && events[k + 2].End?)
    ensures OpenStarts(events[..if events[k + 1].End? then k + 2 else k + 3]) == open
  {
    hide OpenStarts;
    OpenStartsStep(events, k);
    OpenStartsStep(events, k + 1);
    OpenStartsStep(events, k + 2);
    assert (open + [k])[..|open|] == open;
  }

  /** The kinds of the events up to the text behind the inner element. */
  predicate Shaped(events: seq<Event>) {
    && |events| > 13
    && events[0].Start? && events[1].Start? && events[2].Start? && events[3].End? && events[4].Start? && events[5].Text? && events[6].End?
    && events[7].Start? && events[8].Text? && events[9].Start? && events[10].Start? && events[11].End? && events[12].End?
  }

  lemma OpenAtOuter(events: seq<Event>)
    requires Shaped(events)
    ensures OpenStarts(events[..8]) == [0, 1, 7]
  {
    assert events[..0] == [] && OpenStarts(events[..0]) == [];
    hide OpenStarts;
    OpenStartsStep(events, 0);
    OpenStartsStep(events, 1);
    assert OpenStarts(events[..2]) == [0, 1];
    ClosedAgain(events, 2, [0, 1]);
    ClosedAgain(events, 4, [0, 1]);
    OpenStartsStep(events, 7);
  }

  /** At the text behind the inner element the root, the Metadata and the outer Property are open. */
  lemma OpenAtLateText(events: seq<Event>)
    requires Shaped(events)
    ensures OpenStarts(events[..13]) == [0, 1, 7]
  {
    OpenAtOuter(events);
    hide OpenStarts;
    OpenStartsStep(events, 8);
    OpenStartsStep(events, 9);
    var inner := [0, 1, 7, 9];
    assert OpenStarts(events[..10]) == inner && inner[..3] == [0, 1, 7];
    ClosedAgain(events, 10, inner);
    OpenStartsStep(events, 12);
  }

  /** Text in the outer Property after the inner one has ended. */
  lemma LateAt(events: seq<Event>)
    requires Shaped(events) && events[11] == End(Property) && events[13].Text? && events[13].text != ""
    requires events[0].tag.name != Cell && events[1].tag.name != Cell && events[7].tag.name == Property
    requires !OpensBlock(events[7].tag)
    ensures HasLateText(events, 7)
  {
    OpenAtLateText(events);
    hide OpenStarts, OpensBlock, TakesCharacters;
    assert EndsProperty(events[11]) && PropertyEndedSince(events, 7, 13);
    assert IsOpen(events, 7, 13) by {
      assert [0, 1, 7][2] == 7;
    }
    assert IsLate(events, 7, 13);
  }

  lemma LateTextIsThere(a: string, b: string)
    requires b != ""
    ensures HasLateText(LossyHeader(a, b), 7)
  {
    hide HasLateText, LossyHeader;
    LossyIsListed(a, b);
    LateAt(Listed(a, b));
  }

  /**
   For all texts, such a header is accepted, and the description is `a` alone, though its own text goes
   on: what follows the inner Property is lost.
   */
  lemma TextIsLost(a: string, b: string, options: HeaderOptions, rules: ValueRules, headerEnd: int, fileSize: int)
    requires Roomy(options, a) && a != "" && b != ""
    ensures Accepts(LossyHeader(a, b), options, rules, headerEnd, fileSize)
    ensures Truncated(RunOf(LossyHeader(a, b), options).value.draft.metadata.items, a)
    ensures HasLateText(LossyHeader(a, b), 7)
  {
    hide RunOf, EntryDone, Opened, LossyHeader, SteadyDraft, HasLateText, Truncated;
    LateTextIsThere(a, b);
    var x := HeaderReads(a, b, options);
    LostExtends(x, a, options);
    var whole := EntryDone(x, Outer, a, true, None);
    NamesAreDistinct(NamesIn(whole.items));
    hide Finishes, NamesIn;
    EntriesFinish(Nothing.images, whole, Lost(x, a), options, rules);
    LostDraft(Lost(x, a));
  }

  lemma LostDraft(y: Entries)
    ensures SteadyDraft(Nothing.images, y).metadata == y
  {
  }

  lemma NamesAreDistinct(names: seq<Named>)
    requires names == [Named(None, "XISF:CreationTime"), Named(None, "XISF:CreatorApplication")] + [Named(None, "XISF:Description")]
    ensures NoDuplicates(names)
  {
    assert "XISF:CreationTime"[13] != "XISF:CreatorApplication"[13];
  }
}
