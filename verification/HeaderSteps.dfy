/** Runs over whole elements: a start tag, what is inside, and the end tag, in headers without tables, blocks or extensions. */
module HeaderSteps {
  import opened Base
  import opened HeaderStack
  import opened Locations
  import opened Ranges
  import opened HeaderLists
  import opened HeaderDraft
  import opened HeaderDocument
  import opened HeaderEvents
  import opened HeaderValues
  import E = EncodedText

  // ---------------------------------------------------------------- runs from a state

  function RunFrom(s: State, events: seq<Event>, options: HeaderOptions): Option<State>
    decreases |events|
  {
    if events == [] then Some(s)
    else
      var next := StepTaken(s, events[0], options);
      if next.None? then None else RunFrom(next.value, events[1..], options)
  }

  lemma {:induction false} RunAppend(s: State, a: seq<Event>, b: seq<Event>, options: HeaderOptions)
    ensures RunFrom(s, a + b, options)
         == if RunFrom(s, a, options).None? then None else RunFrom(RunFrom(s, a, options).value, b, options)
    decreases |a|
  {
    hide StepTaken;
    if a == [] {
      assert a + b == b;
    } else {
      assert (a + b)[0] == a[0] && (a + b)[1..] == a[1..] + b;
      var next := StepTaken(s, a[0], options);
      if next.Some? {
        RunAppend(next.value, a[1..], b, options);
      }
    }
  }

  lemma {:induction false} RunIsRunFrom(events: seq<Event>, options: HeaderOptions)
    ensures RunOf(events, options) == RunFrom(Beginning, events, options)
    decreases |events|
  {
    hide StepTaken;
    if events != [] {
      var n := |events| - 1;
      RunIsRunFrom(events[..n], options);
      RunAppend(Beginning, events[..n], [events[n]], options);
      assert events[..n] + [events[n]] == events;
      var s := RunFrom(Beginning, events[..n], options);
      if s.Some? {
        RunOne(s.value, events[n], options);
      }
    }
  }

  lemma RunOne(s: State, e: Event, options: HeaderOptions)
    ensures RunFrom(s, [e], options) == StepTaken(s, e, options)
  {
    hide StepTaken;
    assert [e][1..] == [];
  }

  /** An element and what is inside it. */
  function Element(tag: Tag, inner: seq<Event>): seq<Event> {
    [Start(tag)] + (inner + [End(tag.name)])
  }

  lemma RunElement(s: State, tag: Tag, inner: seq<Event>, started: State, last: State, options: HeaderOptions)
    requires !s.rootClosed && StartTaken(s, tag, options) == Some(started)
    requires RunFrom(started, inner, options) == Some(last)
    requires last.stack.elements != [] && Top(last.stack.elements) == tag.name
    ensures RunFrom(s, Element(tag, inner), options) == EndTaken(last, options)
  {
    hide StartTaken, EndTaken, TextTaken;
    RunAppend(s, [Start(tag)], inner + [End(tag.name)], options);
    RunOne(s, Start(tag), options);
    RunAppend(started, inner, [End(tag.name)], options);
    RunOne(last, End(tag.name), options);
  }

  // ---------------------------------------------------------------- steady states

  function Nones(n: nat): seq<Option<nat>> {
    seq(n, _ => None)
  }

  /** A state inside the root, with these elements open and no extension. */
  function Steady(names: seq<Name>, nodes: nat, ranges: seq<AttachedRange>, d: Draft): State {
    State(|names|, nodes, true, false, Stack(names, Nones(|names|)), Extensions([], 0, 0), ranges, d)
  }

  /** Only images and entries, and no open block. */
  function SteadyDraft(images: Images, x: Entries): Draft {
    EmptyDraft().(images := images, metadata := x)
  }

  predicate MayEnter(tag: Tag, names: seq<Name>, nodes: nat, options: HeaderOptions) {
    && names != [] && Top(names) != Cell && Top(names) != Field && Top(names) != Row
    && |names| < options.maxDepth && nodes < options.maxNodes && tag.attributes <= options.maxAttributes
    && !tag.name.Foreign? && !BadAttachment(tag) && tag.uid == ""
  }

  lemma SteadyStart(tag: Tag, names: seq<Name>, nodes: nat, ranges: seq<AttachedRange>, d: Draft, options: HeaderOptions)
    requires MayEnter(tag, names, nodes, options) && NoneOpen(d.encoded)
    ensures var e := KindStarted(names, tag, d, options);
            StartTaken(Steady(names, nodes, ranges, d), tag, options)
            == if e.None? then None else Some(Steady(names + [tag.name], nodes + 1, ranges + RangesOf(tag), e.value))
  {
    hide KindStarted, RangesOf, BadAttachment;
    assert Nones(|names|) + [None] == Nones(|names + [tag.name]|);
  }

  lemma RootEnters(tag: Tag, options: HeaderOptions)
    requires tag.name == Xisf && !BadAttachment(tag)
    requires 1 <= options.maxDepth && 1 <= options.maxNodes && tag.attributes <= options.maxAttributes
    ensures Entered(Beginning, tag, options) == Some(Steady([Xisf], 1, RangesOf(tag), EmptyDraft()).(sawRoot := false))
  {
    hide RangesOf, BadAttachment, EmptyDraft, NoneOpen, CurrentImage, Consume;
    assert Nones(1) == [None] && Beginning.stack.elements + [tag.name] == [Xisf] && Beginning.stack.extensions + [None] == [None];
    assert [] + RangesOf(tag) == RangesOf(tag);
  }

  lemma SteadyRoot(tag: Tag, options: HeaderOptions)
    requires tag.name == Xisf && tag.fault == NoFault && !BadAttachment(tag)
    requires 1 <= options.maxDepth && 1 <= options.maxNodes && tag.attributes <= options.maxAttributes
    ensures StartTaken(Beginning, tag, options) == Some(Steady([Xisf], 1, RangesOf(tag), EmptyDraft()))
  {
    assert NoneOpen(EmptyDraft().encoded);
    hide RangesOf, BadAttachment, ElementStarted, EmptyDraft, NoneOpen, Entered;
    RootEnters(tag, options);
  }

  lemma SteadyEnd(names: seq<Name>, nodes: nat, ranges: seq<AttachedRange>, d: Draft, options: HeaderOptions)
    requires |names| > 1
    ensures var e := ElementEnded(Top(names), d, options);
            EndTaken(Steady(names, nodes, ranges, d), options)
            == if e.None? then None else Some(Steady(names[..|names| - 1], nodes, ranges, e.value))
  {
    hide ElementEnded;
    assert Nones(|names|)[..|names| - 1] == Nones(|names| - 1);
  }

  /** Text goes to the open Property if there is one; else it is passed over where it is not refused. */
  lemma SteadyText(text: string, blank: bool, names: seq<Name>, nodes: nat, ranges: seq<AttachedRange>, d: Draft, options: HeaderOptions)
    requires text != "" && names != [] && NoneOpen(d.encoded) && d.tables.openCell.None? && TablesOpen(d.tables)
    requires InRange(d.metadata.open, |d.metadata.items|) && !RefusesText(names, d, |names|)
    requires d.metadata.open.Some? ==> EntryAllows(d.metadata, text, options)
    ensures TextTaken(Steady(names, nodes, ranges, d), text, blank, options)
         == Some(Steady(names, nodes, ranges,
                        if d.metadata.open.Some? then d.(metadata := WithEntryText(d.metadata, text)) else d))
  {
    hide EntryAllows, WithEntryText, RefusesText;
  }

  /** An element between steady states; `now` and `count` are the ranges and nodes behind what is inside it. */
  lemma SteadyElement(
    tag: Tag, inner: seq<Event>, names: seq<Name>, nodes: nat, ranges: seq<AttachedRange>, now: seq<AttachedRange>, count: nat,
    before: Draft, open: Draft, full: Draft, after: Draft, options: HeaderOptions)
    requires MayEnter(tag, names, nodes, options) && NoneOpen(before.encoded)
    requires KindStarted(names, tag, before, options) == Some(open) && ElementEnded(tag.name, full, options) == Some(after)
    requires RunFrom(Steady(names + [tag.name], nodes + 1, ranges + RangesOf(tag), open), inner, options)
          == Some(Steady(names + [tag.name], count, now, full))
    ensures RunFrom(Steady(names, nodes, ranges, before), Element(tag, inner), options) == Some(Steady(names, count, now, after))
  {
    var within := names + [tag.name];
    hide KindStarted, ElementEnded, RangesOf, BadAttachment, StartTaken, EndTaken, NoneOpen, RunFrom;
    SteadyStart(tag, names, nodes, ranges, before, options);
    SteadyEnd(within, count, now, full, options);
    assert within[..|within| - 1] == names;
    RunElement(Steady(names, nodes, ranges, before), tag, inner,
               Steady(within, nodes + 1, ranges + RangesOf(tag), open), Steady(within, count, now, full), options);
  }

  // ---------------------------------------------------------------- Properties and FITS keywords

  function EntryEvents(tag: Tag, text: string): seq<Event> {
    Element(tag, if text == "" then [] else [Text(text, false)])
  }

  function RoleOf(tag: Tag, inMetadata: bool): Role {
    if tag.name == Property && inMetadata then tag.role else NoRole
  }

  /** The entries once an entry with this text has been read. */
  function EntryDone(x: Entries, tag: Tag, text: string, inMetadata: bool, current: Option<nat>): Entries {
    var e := EntryOf(tag, tag.name == Property, inMetadata, current);
    var y := PushEntry(RoleNoted(x, RoleOf(tag, inMetadata)), tag.uid, e.(value := e.value + text));
    if tag.name == Property then y.(open := None) else y
  }

  /** Where an entry may stand. */
  predicate EntryMayStand(tag: Tag, names: seq<Name>) {
    && IsEntry(tag) && names != []
    && (Top(names) == Xisf || Top(names) == Image || (tag.name == Property && Top(names) == Metadata))
  }

  /** The draft while the element of an entry is open, with this value so far. */
  function EntryOpenDraft(tag: Tag, names: seq<Name>, images: Images, x: Entries, text: string): Draft {
    var d := SteadyDraft(images, x);
    var isProperty, n := tag.name == Property, |x.items|;
    var e := EntryOf(tag, isProperty, Parent(names) == Metadata, CurrentImage(d));
    var y := PushEntry(RoleNoted(x, RoleOf(tag, Parent(names) == Metadata)), "", e.(value := e.value + text));
    var z := if TakesCharacters(tag) then y.(open := Some(n)) else y;
    if InlineProperty(tag, isProperty) && tag.encoding.Some? then
      d.(metadata := z, encoded := Opened(tag.encoding.value, None, Some(n), None, None))
    else d.(metadata := z)
  }

  lemma EntryBegins(tag: Tag, names: seq<Name>, images: Images, x: Entries, options: HeaderOptions)
    requires EntryMayStand(tag, names) && tag.uid == ""
    requires EntryAdmitted(x, tag, tag.name == Property, Parent(names) == Metadata, CurrentImage(SteadyDraft(images, x)), options)
    ensures KindStarted(names, tag, SteadyDraft(images, x), options) == Some(EntryOpenDraft(tag, names, images, x, ""))
  {
    var e := EntryOf(tag, tag.name == Property, Parent(names) == Metadata, CurrentImage(SteadyDraft(images, x)));
    assert e.value + "" == e.value;
    hide ParseLocation, PushEntry, RoleNoted, EntryOf;
  }

  /** Text in a Property that takes it. */
  lemma EntryTakes(tag: Tag, names: seq<Name>, images: Images, x: Entries, text: string, options: HeaderOptions)
    requires EntryMayStand(tag, names) && TakesCharacters(tag) && |text| <= options.maxMetadataValue
    ensures var d := EntryOpenDraft(tag, names, images, x, "");
            && NoneOpen(d.encoded) && d.metadata.open.Some? && d.metadata.open.value < |d.metadata.items|
            && EntryAllows(d.metadata, text, options)
            && d.(metadata := WithEntryText(d.metadata, text)) == EntryOpenDraft(tag, names, images, x, text)
  {
    hide ParseLocation;
    var n := |x.items|;
    var e := EntryOf(tag, true, Parent(names) == Metadata, CurrentImage(SteadyDraft(images, x)));
    assert e.value == "" && e.value + "" == "" && "" + text == text;
    assert (x.items + [e])[n := e.(value := text)] == x.items + [e.(value := text)];
  }

  lemma EntryEnds(tag: Tag, names: seq<Name>, images: Images, x: Entries, text: string, options: HeaderOptions)
    requires EntryMayStand(tag, names) && tag.uid == ""
    ensures ElementEnded(tag.name, EntryOpenDraft(tag, names, images, x, text), options)
         == Some(SteadyDraft(images, EntryDone(x, tag, text, Parent(names) == Metadata, CurrentImage(SteadyDraft(images, x)))))
  {
    hide ParseLocation, EntryOf;
  }

  /** A whole entry: no text, or one piece of it in a Property that takes it. */
  lemma RunEntry(
    tag: Tag, text: string, names: seq<Name>, nodes: nat, ranges: seq<AttachedRange>, images: Images, x: Entries, options: HeaderOptions)
    requires EntryMayStand(tag, names) && MayEnter(tag, names, nodes, options) && tag.uid == ""
    requires EntryAdmitted(x, tag, tag.name == Property, Parent(names) == Metadata, CurrentImage(SteadyDraft(images, x)), options)
    requires text != "" ==> TakesCharacters(tag) && |text| <= options.maxMetadataValue
    ensures RunFrom(Steady(names, nodes, ranges, SteadyDraft(images, x)), EntryEvents(tag, text), options)
         == Some(Steady(names, nodes + 1, ranges + RangesOf(tag),
                        SteadyDraft(images, EntryDone(x, tag, text, Parent(names) == Metadata, CurrentImage(SteadyDraft(images, x))))))
  {
    var d := SteadyDraft(images, x);
    hide EntryOpenDraft, EntryDone, SteadyDraft, KindStarted, ElementEnded, RangesOf, MayEnter, EntryAdmitted, EntryMayStand, RunFrom,
        Steady, Element;
    EntryParts(tag, text, names, images, x, options);
    EntryInside(tag, text, names, nodes + 1, ranges + RangesOf(tag), images, x, options);
    SteadyElement(tag, if text == "" then [] else [Text(text, false)], names, nodes, ranges, ranges + RangesOf(tag), nodes + 1,
                  d, EntryOpenDraft(tag, names, images, x, ""), EntryOpenDraft(tag, names, images, x, text),
                  SteadyDraft(images, EntryDone(x, tag, text, Parent(names) == Metadata, CurrentImage(d))), options);
  }

  lemma EntryParts(tag: Tag, text: string, names: seq<Name>, images: Images, x: Entries, options: HeaderOptions)
    requires EntryMayStand(tag, names) && tag.uid == ""
    requires EntryAdmitted(x, tag, tag.name == Property, Parent(names) == Metadata, CurrentImage(SteadyDraft(images, x)), options)
    ensures var d := SteadyDraft(images, x);
            && NoneOpen(d.encoded)
            && KindStarted(names, tag, d, options) == Some(EntryOpenDraft(tag, names, images, x, ""))
            && ElementEnded(tag.name, EntryOpenDraft(tag, names, images, x, text), options)
               == Some(SteadyDraft(images, EntryDone(x, tag, text, Parent(names) == Metadata, CurrentImage(d))))
  {
    hide EntryOpenDraft, EntryDone, KindStarted, ElementEnded, EntryAdmitted, EntryMayStand;
    EntryBegins(tag, names, images, x, options);
    EntryEnds(tag, names, images, x, text, options);
  }

  lemma EntryInside(
    tag: Tag, text: string, names: seq<Name>, nodes: nat, ranges: seq<AttachedRange>, images: Images, x: Entries, options: HeaderOptions)
    requires EntryMayStand(tag, names) && (text != "" ==> TakesCharacters(tag) && |text| <= options.maxMetadataValue)
    ensures RunFrom(Steady(names + [tag.name], nodes, ranges, EntryOpenDraft(tag, names, images, x, "")),
                    if text == "" then [] else [Text(text, false)], options)
         == Some(Steady(names + [tag.name], nodes, ranges, EntryOpenDraft(tag, names, images, x, text)))
  {
    if text != "" {
      var open := EntryOpenDraft(tag, names, images, x, "");
      EntryTakes(tag, names, images, x, text, options);
      EntryIsCalm(tag, names, images, x);
      hide EntryOpenDraft, TextTaken, EntryAllows, WithEntryText, RefusesText;
      SteadyText(text, false, names + [tag.name], nodes, ranges, open, options);
      RunOne(Steady(names + [tag.name], nodes, ranges, open), Text(text, false), options);
    }
  }

  lemma EntryIsCalm(tag: Tag, names: seq<Name>, images: Images, x: Entries)
    requires EntryMayStand(tag, names) && TakesCharacters(tag)
    ensures var d := EntryOpenDraft(tag, names, images, x, "");
            d.tables.openCell.None? && TablesOpen(d.tables) && !RefusesText(names + [tag.name], d, |names + [tag.name]|)
  {
    hide ParseLocation, EntryOf;
  }
}
