/** An accepted header keeps to every limit of the reader. */
module HeaderLimits {
  import opened Base
  import opened HeaderStack
  import opened HeaderLists
  import opened HeaderDraft
  import opened HeaderDocument
  import opened HeaderEvents
  import opened HeaderBindings
  import E = EncodedText

  /** The lists of tables, and all that is in them. */
  predicate TablesLimited(x: Tables, options: HeaderOptions) {
    && |x.items| <= options.maxTables && |x.structures| <= options.maxStructures && x.fields <= options.maxFields
    && x.rows <= options.maxRows && x.cells <= options.maxCells && x.text <= options.maxTableText
    && |x.references| <= options.maxTables && |x.events| <= options.maxTableBindings
  }

  predicate DraftLimited(d: Draft, options: HeaderOptions) {
    && |d.images.items| <= options.maxImages
    && |d.metadata.items| <= options.maxMetadata && |d.metadata.events| <= options.maxMetadata
    && |d.profiles.items| <= options.maxProfiles && |d.profiles.events| <= options.maxProfileBindings
    && d.ancillaries.count <= options.maxAncillary && |d.ancillaries.events| <= options.maxAncillaryBindings
    && d.ancillaries.attributes <= options.maxAncillaryAttributes && d.ancillaries.bytes <= options.maxAncillaryBytes
    && |d.thumbnails.items| <= options.maxThumbnails && |d.thumbnails.events| <= options.maxThumbnailBindings
    && TablesLimited(d.tables, options)
  }

  predicate Limited(s: State, options: HeaderOptions) {
    && s.depth <= options.maxDepth && s.nodes <= options.maxNodes
    && |s.extensions.items| <= options.maxExtensions && s.extensions.attributes <= options.maxExtensionAttributes
    && s.extensions.bytes <= options.maxExtensionBytes
    && DraftLimited(s.draft, options)
  }

  lemma TablesStartLimited(outer: seq<Name>, tag: Tag, d: Draft, options: HeaderOptions)
    requires tag.name == Table || tag.name == Structure || tag.name == Field || tag.name == Row || tag.name == Cell
    requires DraftLimited(d, options) && KindStarted(outer, tag, d, options).Some?
    ensures DraftLimited(KindStarted(outer, tag, d, options).value, options)
  {
    hide Emplace, CellOf;
  }

  lemma OthersStartLimited(outer: seq<Name>, tag: Tag, d: Draft, options: HeaderOptions)
    requires tag.name != Table && tag.name != Structure && tag.name != Field && tag.name != Row && tag.name != Cell
    requires DraftLimited(d, options) && KindStarted(outer, tag, d, options).Some?
    ensures DraftLimited(KindStarted(outer, tag, d, options).value, options)
  {
    hide Emplace, TableStarted, StructureStarted, FieldStarted, RowStarted, CellStarted;
  }

  lemma StartLimited(s: State, tag: Tag, options: HeaderOptions)
    requires Limited(s, options) && StartTaken(s, tag, options).Some?
    ensures Limited(StartTaken(s, tag, options).value, options) && StartTaken(s, tag, options).value.nodes == s.nodes + 1
  {
    hide KindStarted, RangesOf, BadAttachment, DraftLimited;
    if Entered(s, tag, options).value.depth != 1 {
      var d := UidRegistered(tag, s.draft).value;
      assert DraftLimited(d, options) by {
        SameLimits(s.draft, d, options);
      }
      if tag.name == Table || tag.name == Structure || tag.name == Field || tag.name == Row || tag.name == Cell {
        TablesStartLimited(s.stack.elements, tag, d, options);
      } else {
        OthersStartLimited(s.stack.elements, tag, d, options);
      }
    }
  }

  lemma SameLimits(d: Draft, e: Draft, options: HeaderOptions)
    requires DraftLimited(d, options) && e == d.(coreUids := e.coreUids)
    ensures DraftLimited(e, options)
  {
  }

  lemma EndLimited(s: State, options: HeaderOptions)
    requires Limited(s, options) && EndTaken(s, options).Some?
    ensures Limited(EndTaken(s, options).value, options) && EndTaken(s, options).value.nodes == s.nodes
  {
    hide EndsBlock;
  }

  /** Text in a cell or an extension counts against its budget. */
  lemma TextWithinBudget(s: State, text: string, blank: bool, options: HeaderOptions)
    requires text != "" && NoneOpen(s.draft.encoded) && TextTaken(s, text, blank, options).Some?
    requires s.draft.tables.text <= options.maxTableText && s.extensions.bytes <= options.maxExtensionBytes
    ensures var t := TextTaken(s, text, blank, options).value;
            && t.draft.tables.text <= options.maxTableText && t.extensions.bytes <= options.maxExtensionBytes
            && |t.extensions.items| == |s.extensions.items| && t.extensions.attributes == s.extensions.attributes
  {
    hide OpenCellOf, RefusesText, WithEntryText, EntryAllows;
  }

  lemma BlockTextElsewhere(s: State, text: string, blank: bool, options: HeaderOptions)
    requires text != "" && !NoneOpen(s.draft.encoded) && TextTaken(s, text, blank, options).Some?
    ensures var t := TextTaken(s, text, blank, options).value; t.draft.tables == s.draft.tables && t.extensions == s.extensions
  {
    hide E.Feed;
  }

  lemma TextLimited(s: State, text: string, blank: bool, options: HeaderOptions)
    requires Limited(s, options) && TextTaken(s, text, blank, options).Some?
    ensures Limited(TextTaken(s, text, blank, options).value, options) && TextTaken(s, text, blank, options).value.nodes == s.nodes
  {
    var t := TextTaken(s, text, blank, options).value;
    assert t.depth == s.depth && t.nodes == s.nodes;
    if text != "" {
      if !NoneOpen(s.draft.encoded) {
        BlockTextDraft(s, text, blank, options);
        BlockTextElsewhere(s, text, blank, options);
      } else {
        if s.draft.tables.openCell.Some? {
          CellTextDraft(s, text, blank, options);
        } else {
          OtherTextDraft(s, text, blank, options);
        }
        TextWithinBudget(s, text, blank, options);
      }
      hide TextTaken;
    }
  }

  /** The number of start tags. */
  function StartCount(events: seq<Event>): nat {
    if events == [] then 0 else StartCount(events[..|events| - 1]) + if events[|events| - 1].Start? then 1 else 0
  }

  /** Whatever run is not stopped has kept to the limits, and counted every element. */
  lemma {:induction false} RunKeepsLimits(events: seq<Event>, options: HeaderOptions)
    requires RunOf(events, options).Some?
    ensures Limited(RunOf(events, options).value, options) && RunOf(events, options).value.nodes == StartCount(events)
    decreases |events|
  {
    hide Limited, StartTaken, EndTaken, TextTaken;
    if events == [] {
      NothingLimited(options);
    } else {
      var front, e := events[..|events| - 1], events[|events| - 1];
      RunKeepsLimits(front, options);
      var s := RunOf(front, options).value;
      match e
      case Start(tag) => StartLimited(s, tag, options);
      case End(_) => EndLimited(s, options);
      case Text(text, blank) =>
        if s.stack.elements != [] {
          TextLimited(s, text, blank, options);
        }
    }
  }

  lemma NothingLimited(options: HeaderOptions)
    ensures Limited(Beginning, options)
  {
  }
}
