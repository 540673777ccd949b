/** The events of a header, and what a run of the handlers makes of them, as functions. */
module HeaderEvents {
  import opened Base
  import opened HeaderStack
  import opened Ranges
  import opened HeaderLists
  import opened HeaderDraft
  import opened HeaderDocument

  datatype Event = Start(tag: Tag) | End(name: Name) | Text(text: string, blank: bool)

  /** The objects that a header declares, counted from its start tags. */
  function TallyOfEvents(events: seq<Event>): Tally {
    if events == [] then Tally(0, 0, 0, 0, 0, 0, 0)
    else
      var e := events[|events| - 1];
      var before := TallyOfEvents(events[..|events| - 1]);
      if e.Start? then Counted(before, e.tag.name) else before
  }

  /** The ranges of the file that the start tags claim. */
  function RangesOfEvents(events: seq<Event>): seq<AttachedRange> {
    if events == [] then []
    else
      var e := events[|events| - 1];
      RangesOfEvents(events[..|events| - 1]) + if e.Start? then RangesOf(e.tag) else []
  }

  /** The elements that are open after these events. */
  function OpenAfter(events: seq<Event>): seq<Name> {
    if events == [] then []
    else
      var before := OpenAfter(events[..|events| - 1]);
      match events[|events| - 1]
      case Start(tag) => before + [tag.name]
      case End(_) => if before == [] then [] else before[..|before| - 1]
      case Text(_, _) => before
  }

  function TextOf(events: seq<Event>): string {
    if events == [] then ""
    else TextOf(events[..|events| - 1]) + if events[|events| - 1].Text? then events[|events| - 1].text else ""
  }

  // ---------------------------------------------------------------- the run as a function

  /** What one event does, if the parser and the handlers let it pass. */
  function StepTaken(s: State, e: Event, options: HeaderOptions): Option<State> {
    var open := s.stack.elements;
    match e
    case Start(tag) => if s.rootClosed then None else StartTaken(s, tag, options)
    case End(name) => if open == [] || Top(open) != name then None else EndTaken(s, options)
    case Text(text, blank) => if open != [] then TextTaken(s, text, blank, options) else if blank then Some(s) else None
  }

  function RunOf(events: seq<Event>, options: HeaderOptions): Option<State> {
    if events == [] then Some(Beginning)
    else
      var before := RunOf(events[..|events| - 1], options);
      if before.None? then None else StepTaken(before.value, events[|events| - 1], options)
  }

  lemma {:induction false} RunStops(events: seq<Event>, k: nat, options: HeaderOptions)
    requires k <= |events| && RunOf(events[..k], options).None?
    ensures RunOf(events, options).None?
    decreases |events|
  {
    if k == |events| {
      assert events[..k] == events;
    } else {
      var front := events[..|events| - 1];
      assert front[..k] == events[..k];
      RunStops(front, k, options);
    }
  }

  lemma RunAdvances(events: seq<Event>, k: nat, options: HeaderOptions)
    requires k < |events| && RunOf(events[..k], options).Some?
    ensures RunOf(events[..k + 1], options) == StepTaken(RunOf(events[..k], options).value, events[k], options)
  {
    assert events[..k + 1][..k] == events[..k];
    hide StepTaken;
  }

  /** Every element is closed, the draft becomes a document, and the claimed ranges are in the payload and apart. */
  predicate Accepts(events: seq<Event>, options: HeaderOptions, rules: ValueRules, headerEnd: int, fileSize: int) {
    var end := RunOf(events, options);
    && end.Some? && end.value.stack.elements == [] && end.value.sawRoot && end.value.rootClosed
    && Finishes(end.value.draft, options, rules)
    && Acceptable(end.value.ranges, headerEnd, fileSize)
  }

  lemma RunBegins(options: HeaderOptions)
    ensures RunOf([], options) == Some(Beginning)
  {
  }
}
