/** The run of the handlers over the events of a header, and where the blocks in its text come from. */
module HeaderRun {
  import opened Base
  import opened HeaderStack
  import opened Locations
  import opened HeaderLists
  import opened HeaderDraft
  import opened HeaderMachine
  import opened HeaderDocument
  import opened HeaderEvents
  import opened HeaderValues
  import opened HeaderRecords
  import opened HeaderBindings
  import opened HeaderTables
  import opened Ranges
  import E = EncodedText

  // ---------------------------------------------------------------- blocks and their text

  function LimitOf(slot: Slot, options: HeaderOptions): U64 {
    match slot
    case OfImage(_) => options.maxImageBlock
    case OfThumbnail(_) => options.maxThumbnailBlock
    case OfProfile(_) => options.maxProfileBlock
    case OfEntry(_) => options.maxPropertyBlock
  }

  /** The element that starts at `p` gives this block, and from there to `q` it has only text in it. */
  ghost predicate GivenAt(events: seq<Event>, slot: Slot, p: nat, q: nat) {
    && p < q <= |events| && events[p].Start? && events[p].tag.encoding.Some?
    && Gives(slot, OpenAfter(events[..p]), events[p].tag.name, TallyOfEvents(events[..p + 1]))
    && forall k | p < k < q :: events[k].Text?
  }

  /** It ends at `q`, and its text is, white space aside, the one canonical encoding of these bytes. */
  ghost predicate Encodes(events: seq<Event>, slot: Slot, p: nat, q: nat, bytes: Bytes, options: HeaderOptions) {
    && GivenAt(events, slot, p, q) && q < |events| && events[q].End?
    && var text := E.Stripped(TextOf(events[p + 1..q]));
       text == E.CanonicalText(events[p].tag.encoding.value, bytes) && |text| <= options.maxEncoded && |bytes| <= LimitOf(slot, options)
  }

  /** One of the elements that have ended before event `n` encodes the block. */
  ghost predicate Given(events: seq<Event>, n: nat, slot: Slot, bytes: Bytes, options: HeaderOptions) {
    exists p: nat, q: nat :: q < n && Encodes(events, slot, p, q, bytes, options)
  }

  ghost predicate AllGiven(events: seq<Event>, n: nat, d: Draft, options: HeaderOptions) {
    forall slot | InText(d, slot) && OpenSlot(d.encoded) != Some(slot) :: Given(events, n, slot, BlockIn(d, slot), options)
  }

  /** The decoder of the open block stands behind the text since its element began. */
  ghost predicate StandsAt(events: seq<Event>, n: nat, x: Encoded, slot: Slot, p: nat, options: HeaderOptions) {
    && GivenAt(events, slot, p, n) && x.encoding == events[p].tag.encoding
    && x.decoding == E.Feed(E.Rules(x.encoding.value, options.maxEncoded, LimitOf(slot, options)), E.Fresh, TextOf(events[p + 1..n]))
  }

  ghost predicate OpenGiven(events: seq<Event>, n: nat, x: Encoded, options: HeaderOptions) {
    OpenSlot(x).Some? ==> exists p: nat :: StandsAt(events, n, x, OpenSlot(x).value, p, options)
  }

  ghost predicate Told(events: seq<Event>, n: nat, d: Draft, options: HeaderOptions) {
    AllGiven(events, n, d, options) && OpenGiven(events, n, d.encoded, options)
  }

  /** What was given stays so while only the open block changes. */
  lemma StillGiven(events: seq<Event>, n: nat, m: nat, d: Draft, e: Draft, options: HeaderOptions)
    requires AllGiven(events, n, d, options) && n <= m && KeepsBlocks(d, e)
    requires OpenSlot(d.encoded).Some? ==> OpenSlot(e.encoded) == OpenSlot(d.encoded)
    ensures AllGiven(events, m, e, options)
  {
    hide InText, BlockIn, Encodes, OpenSlot;
    forall slot | InText(e, slot) && OpenSlot(e.encoded) != Some(slot)
      ensures Given(events, m, slot, BlockIn(e, slot), options)
    {
      assert InText(d, slot) && Given(events, n, slot, BlockIn(d, slot), options);
    }
  }

  lemma ToldStart(events: seq<Event>, n: nat, d: Draft, e: Draft, options: HeaderOptions)
    requires Told(events, n, d, options) && n < |events| && events[n].Start? && NoneOpen(d.encoded)
    requires KeepsBlocks(d, e) && Begins(OpenAfter(events[..n]), events[n].tag, e) && TallyOf(e) == TallyOfEvents(events[..n + 1])
    ensures Told(events, n + 1, e, options)
  {
    hide KeepsBlocks, AllGiven, OpenAfter, TallyOfEvents, TallyOf, Gives;
    StillGiven(events, n, n + 1, d, e, options);
    if OpenSlot(e.encoded).Some? {
      assert events[n + 1..n + 1] == [];
      assert StandsAt(events, n + 1, e.encoded, OpenSlot(e.encoded).value, n, options);
    }
  }

  lemma ToldText(events: seq<Event>, n: nat, d: Draft, e: Draft, options: HeaderOptions)
    requires Told(events, n, d, options) && n < |events| && events[n].Text? && KeepsBlocks(d, e)
    requires if NoneOpen(d.encoded) then e.encoded == d.encoded
             else
               && d.encoded.encoding.Some? && E.InStep(d.encoded.decoding)
               && e.encoded == d.encoded.(decoding := E.Feed(RulesOf(d.encoded, options), d.encoded.decoding, events[n].text))
    ensures Told(events, n + 1, e, options)
  {
    hide KeepsBlocks, AllGiven, OpenAfter, TallyOfEvents, Gives;
    StillGiven(events, n, n + 1, d, e, options);
    if OpenSlot(d.encoded).Some? {
      var slot := OpenSlot(d.encoded).value;
      var p: nat :| StandsAt(events, n, d.encoded, slot, p, options);
      MoreText(events, n, d.encoded, e.encoded, slot, p, options);
    }
  }

  lemma MoreText(events: seq<Event>, n: nat, x: Encoded, y: Encoded, slot: Slot, p: nat, options: HeaderOptions)
    requires n < |events| && events[n].Text? && OpenSlot(x) == Some(slot) && StandsAt(events, n, x, slot, p, options)
    requires x.encoding.Some? && E.InStep(x.decoding)
    requires y == x.(decoding := E.Feed(RulesOf(x, options), x.decoding, events[n].text))
    ensures StandsAt(events, n + 1, y, slot, p, options)
  {
    hide OpenAfter, TallyOfEvents, Gives, E.Feed;
    var part := events[p + 1..n + 1];
    assert part[..|part| - 1] == events[p + 1..n];
    E.PiecesDoNotMatter(RulesOf(x, options), E.Fresh, TextOf(events[p + 1..n]), events[n].text);
  }

  lemma ToldEnd(events: seq<Event>, n: nat, d: Draft, e: Draft, options: HeaderOptions)
    requires Told(events, n, d, options) && n < |events| && events[n].End?
    requires SameBlocks(d, e) && NoneOpen(e.encoded)
    requires !NoneOpen(d.encoded) ==> EndsBlock(d, options) && HoldsOpen(d)
    ensures Told(events, n + 1, e, options)
  {
    hide SameBlocks, Encodes, StandsAt, EndsBlock, BlockIn, InText;
    forall slot | InText(e, slot)
      ensures Given(events, n + 1, slot, BlockIn(e, slot), options)
    {
      SameBlocksAt(d, e, slot);
      if OpenSlot(d.encoded) == Some(slot) {
        var p: nat :| StandsAt(events, n, d.encoded, slot, p, options);
        Ended(events, n, d, slot, p, options);
      } else {
        assert Given(events, n, slot, BlockIn(d, slot), options);
      }
    }
  }

  lemma SameBlocksAt(d: Draft, e: Draft, slot: Slot)
    requires SameBlocks(d, e) && InText(e, slot)
    ensures InText(d, slot) && BlockIn(e, slot) == BlockIn(d, slot)
  {
  }

  /** The open block holds what the decoder has put out. */
  predicate HoldsOpen(d: Draft) {
    var slot := OpenSlot(d.encoded);
    slot.Some? && d.encoded.decoding.Going? && (InText(d, slot.value) ==> BlockIn(d, slot.value) == d.encoded.decoding.output)
  }

  lemma Ended(events: seq<Event>, n: nat, d: Draft, slot: Slot, p: nat, options: HeaderOptions)
    requires n < |events| && events[n].End? && OpenSlot(d.encoded) == Some(slot) && InText(d, slot)
    requires StandsAt(events, n, d.encoded, slot, p, options) && EndsBlock(d, options) && HoldsOpen(d)
    ensures Given(events, n + 1, slot, BlockIn(d, slot), options)
  {
    hide OpenAfter, TallyOfEvents, Gives, E.Feed, E.Stripped, E.CanonicalText, InText, BlockIn;
    var text := TextOf(events[p + 1..n]);
    E.AcceptsExactlyCanonical(RulesOf(d.encoded, options), text, d.encoded.decoding.output);
    assert Encodes(events, slot, p, n, BlockIn(d, slot), options);
  }

  lemma OpenIsHeld(s: seq<Name>, d: Draft, options: HeaderOptions)
    requires Consistent(s, d, options) && !NoneOpen(d.encoded)
    ensures HoldsOpen(d)
  {
    hide GoodStack, Linked, ImagesOk, EntriesOk, ProfilesOk, AncillariesOk, ThumbnailsOk, TablesOk;
  }

  lemma TextKeepsBlocks(s: Stack, d: Draft, x: Extensions, text: string)
    requires TextReady(s, d, |x.items|)
    ensures KeepsBlocks(d, DraftWithText(s, d, x, text)) && DraftWithText(s, d, x, text).encoded == d.encoded
  {
    SameBlocksKeeps(d, DraftWithText(s, d, x, text));
  }

  lemma BlockTextKeepsBlocks(s: seq<Name>, d: Draft, next: E.Progress, options: HeaderOptions)
    requires next.Going? && Consistent(s, d, options) && !NoneOpen(d.encoded)
    ensures KeepsBlocks(d, WithBytes(d, next.output).(encoded := d.encoded.(decoding := next)))
  {
    hide GoodStack, Linked, ImagesOk, EntriesOk, ProfilesOk, AncillariesOk, ThumbnailsOk, TablesOk;
    var e := WithBytes(d, next.output).(encoded := d.encoded.(decoding := next));
    forall slot | InText(e, slot) && OpenSlot(e.encoded) != Some(slot)
      ensures InText(d, slot) && BlockIn(e, slot) == BlockIn(d, slot)
    {
    }
  }

  /** At the end no block is open, so that all have been given. */
  lemma AllToldAtEnd(events: seq<Event>, d: Draft, e: Draft, ranges: seq<AttachedRange>, options: HeaderOptions)
    requires Consistent([], d, options) && Follows(events, |events|, d, [], ranges, options) && e == d.(tables := e.tables)
    ensures TallyOf(d) == TallyOfEvents(events) && ranges == RangesOfEvents(events)
    ensures forall slot | InText(e, slot) :: Given(events, |events|, slot, BlockIn(e, slot), options)
  {
    ClosedFacts(d, options);
    assert events[..|events|] == events;
    hide Consistent, Given, TallyOf, InText, BlockIn, KeepsBlocks;
    SameBlocksKeeps(d, e);
    StillGiven(events, |events|, |events|, d, e, options);
  }

  lemma WithBytesEncoded(d: Draft, bytes: Bytes)
    ensures WithBytes(d, bytes).encoded == d.encoded
  {
  }

  /** Every embedded block that an accepted document can be asked for is given by the text. */
  lemma EmbeddedIsInText(doc: Document, rules: ValueRules, i: nat)
    requires DocumentOk(doc, rules)
    ensures i < |doc.draft.images.items| && doc.draft.images.items[i].block.kind == Embedded ==> InText(doc.draft, OfImage(i))
    ensures i < |doc.draft.thumbnails.items| && doc.draft.thumbnails.items[i].block.kind == Embedded ==> InText(doc.draft, OfThumbnail(i))
    ensures i < |doc.draft.profiles.items| && doc.draft.profiles.items[i].kind == InlineData ==> InText(doc.draft, OfProfile(i))
    ensures i < |doc.draft.metadata.items| && doc.draft.metadata.items[i].block.kind == InlineData ==> InText(doc.draft, OfEntry(i))
  {
    hide AllOk, NoDuplicates, TableComplete, ReferencesOk, MetadataBindingOk;
  }

  // ---------------------------------------------------------------- the run

  /** What the state has to do with the events before `n`. */
  ghost predicate Follows(
    events: seq<Event>, n: nat, d: Draft, open: seq<Name>, ranges: seq<AttachedRange>, options: HeaderOptions)
  {
    && n <= |events|
    && TallyOf(d) == TallyOfEvents(events[..n]) && open == OpenAfter(events[..n]) && ranges == RangesOfEvents(events[..n])
    && Told(events, n, d, options)
  }

  lemma FollowsNothing(events: seq<Event>, options: HeaderOptions)
    ensures Follows(events, 0, EmptyDraft(), [], [], options)
  {
  }

  lemma FollowsStart(
    events: seq<Event>, n: nat, d: Draft, e: Draft, open: seq<Name>, ranges: seq<AttachedRange>, options: HeaderOptions)
    requires Follows(events, n, d, open, ranges, options) && n < |events| && events[n].Start? && NoneOpen(d.encoded)
    requires KeepsBlocks(d, e) && Begins(open, events[n].tag, e) && TallyOf(e) == Counted(TallyOf(d), events[n].tag.name)
    ensures Follows(events, n + 1, e, open + [events[n].tag.name], ranges + RangesOf(events[n].tag), options)
  {
    hide Told, KeepsBlocks, Begins, RangesOf, TallyOf, Counted;
    assert events[..n + 1][..n] == events[..n];
    ToldStart(events, n, d, e, options);
  }

  lemma FollowsText(
    events: seq<Event>, n: nat, d: Draft, e: Draft, open: seq<Name>, ranges: seq<AttachedRange>, options: HeaderOptions)
    requires Follows(events, n, d, open, ranges, options) && n < |events| && events[n].Text?
    requires KeepsBlocks(d, e) && TallyOf(e) == TallyOf(d)
    requires if NoneOpen(d.encoded) then e.encoded == d.encoded
             else
               && d.encoded.encoding.Some? && E.InStep(d.encoded.decoding)
               && e.encoded == d.encoded.(decoding := E.Feed(RulesOf(d.encoded, options), d.encoded.decoding, events[n].text))
    ensures Follows(events, n + 1, e, open, ranges, options)
  {
    hide Told, KeepsBlocks, RangesOf, TallyOf, Counted;
    assert events[..n + 1][..n] == events[..n];
    ToldText(events, n, d, e, options);
  }

  lemma FollowsEnd(
    events: seq<Event>, n: nat, d: Draft, e: Draft, open: seq<Name>, ranges: seq<AttachedRange>, options: HeaderOptions)
    requires Follows(events, n, d, open, ranges, options) && n < |events| && events[n].End? && open != []
    requires SameBlocks(d, e) && NoneOpen(e.encoded) && TallyOf(e) == TallyOf(d)
    requires !NoneOpen(d.encoded) ==> EndsBlock(d, options) && HoldsOpen(d)
    ensures Follows(events, n + 1, e, open[..|open| - 1], ranges, options)
  {
    hide Told, SameBlocks, RangesOf, TallyOf, Counted;
    assert events[..n + 1][..n] == events[..n];
    ToldEnd(events, n, d, e, options);
  }

  /** Character data and what it leaves of the open block. */
  method TakeText(state: XmlBuilder, ghost events: seq<Event>, ghost n: nat, text: string, blank: bool)
    requires state.Valid() && state.error.None? && n < |events| && events[n] == Text(text, blank)
    requires Follows(events, n, state.draft, state.stack.elements, state.attachedRanges, state.options)
    modifies state`error, state`draft, state`extensions
    ensures state.Valid()
    ensures state.error.None? ==>
              Follows(events, n + 1, state.draft, state.stack.elements, state.attachedRanges, state.options)
    ensures Unless(state.error, state.View()) == TextTaken(old(state.View()), text, blank, state.options)
  {
    ghost var d, s, x := state.draft, state.stack, state.extensions;
    assert Consistent(s.elements, d, state.options);
    hide Consistent, Heights, Follows, TextAllowed, TextReady, DraftWithText, KeepsBlocks, WithBytes;
    OpenBlockIsReady(s.elements, d, state.options);
    if text == "" {
      assert KeepsBlocks(d, d) by {
        SameBlocksKeeps(d, d);
      }
    }
    state.CharacterData(text, blank);
    if state.error.None? && text != "" {
      if NoneOpen(d.encoded) {
        TextKeepsBlocks(s, d, x, text);
      } else {
        BlockTextKeepsBlocks(s.elements, d, E.Feed(RulesOf(d.encoded, state.options), d.encoded.decoding, text), state.options);
        WithBytesEncoded(d, E.Feed(RulesOf(d.encoded, state.options), d.encoded.decoding, text).output);
      }
    }
    if state.error.None? {
      FollowsText(events, n, d, state.draft, s.elements, state.attachedRanges, state.options);
    }
  }

  method TakeStart(state: XmlBuilder, ghost events: seq<Event>, ghost n: nat, tag: Tag)
    requires state.Valid() && state.error.None? && n < |events| && events[n] == Start(tag)
    requires Follows(events, n, state.draft, state.stack.elements, state.attachedRanges, state.options)
    modifies state
    ensures state.Valid()
    ensures state.error.None? ==>
              Follows(events, n + 1, state.draft, state.stack.elements, state.attachedRanges, state.options)
    ensures Unless(state.error, state.View()) == StartTaken(old(state.View()), tag, state.options)
  {
    ghost var d, s, ranges := state.draft, state.stack, state.attachedRanges;
    hide Consistent, Heights, Follows, KeepsBlocks, Begins, RangesOf, TallyOf, Counted;
    state.StartElement(tag);
    if state.error.None? {
      FollowsStart(events, n, d, state.draft, s.elements, ranges, state.options);
    }
  }

  method TakeEnd(state: XmlBuilder, ghost events: seq<Event>, ghost n: nat)
    requires state.Valid() && state.error.None? && n < |events| && events[n].End? && state.stack.elements != []
    requires Follows(events, n, state.draft, state.stack.elements, state.attachedRanges, state.options)
    modifies state`error, state`draft, state`depth, state`stack, state`rootClosed
    ensures state.Valid()
    ensures state.error.None? ==>
              Follows(events, n + 1, state.draft, state.stack.elements, state.attachedRanges, state.options)
    ensures Unless(state.error, state.View()) == EndTaken(old(state.View()), state.options)
    ensures state.error.None? ==> NoneOpen(state.draft.encoded)
  {
    ghost var d, s := state.draft, state.stack;
    assert Consistent(s.elements, d, state.options);
    hide Consistent, Heights, Follows, SameBlocks, TallyOf, EndsBlock, HoldsOpen;
    if !NoneOpen(d.encoded) {
      OpenIsHeld(s.elements, d, state.options);
    }
    state.EndElement();
    if state.error.None? {
      FollowsEnd(events, n, d, state.draft, s.elements, state.attachedRanges, state.options);
    }
  }

  /**
   The events of one header, as the XML parser reports them: it rejects a closing tag that does not
   match, anything but white space outside the root, and an end of the text inside an element. The
   handlers are given every other event, in every order. Whether the header is accepted, and the
   document that it becomes, are those of the run of the events.
   */
  method ParseHeader(events: seq<Event>, options: HeaderOptions, rules: ValueRules, headerLength: nat, fileSize: U64)
    returns (r: Result<Document>, ranges: seq<AttachedRange>)
    requires headerLength < 0x1_0000_0000
    ensures r.Err? ==> r.error == MalformedXml || r.error == InvalidBlock || HandlerCode(r.error)
    ensures r.Ok? ==> DocumentOk(r.value, rules) && TallyOf(r.value.draft) == TallyOfEvents(events)
    ensures r.Ok? ==> Acceptable(RangesOfEvents(events), 16 + headerLength, fileSize)
    ensures r.Ok? ==> multiset(ranges) == multiset(RangesOfEvents(events)) && Sorted(ranges)
    ensures r.Ok? ==> forall slot | InText(r.value.draft, slot) ::
                        Given(events, |events|, slot, BlockIn(r.value.draft, slot), options)
    ensures r.Ok? <==> Accepts(events, options, rules, 16 + headerLength, fileSize)
    ensures r.Ok? ==> var end := RunOf(events, options).value;
                        r.value == Composed(end.draft, Resolved(end.draft.tables), end.extensions.items)
    ensures r.Ok? ==> ValuesOf(events, r.value.draft.metadata.items) && RecordsOf(events, r.value)
    ensures r.Ok? ==> BoundAsAsked(events, r.value) && TablesStructured(events, r.value)
  {
    hide DocumentOk, Consistent, Heights, Follows, TallyOf, Acceptable, Sorted, StartTaken, EndTaken, TextTaken, Finishes, Composed;
    hide RunOf, Valued, ValuesOf, Nested, NamesAt, Listed, RecordsOf, Tied, BoundAsAsked, Structured, TablesStructured;
    var state := new XmlBuilder(options);
    FollowsNothing(events, options);
    RunBegins(options);
    ValuedNothing(events);
    KeptNothing(events);
    TiedNothing(events);
    StructuredNothing(events);
    for i := 0 to |events|
      invariant fresh(state) && state.Valid() && state.error.None? && state.options == options
      invariant Follows(events, i, state.draft, state.stack.elements, state.attachedRanges, options)
      invariant RunOf(events[..i], options) == Some(state.View()) && Valued(events, i, state.View())
      invariant Listed(events, i, state.View()) && Tied(events, i, state.draft)
      invariant Structured(events, i, state.draft)
    {
      RunAdvances(events, i, options);
      var stopped := TakeEvent(state, events, i);
      if stopped.Some? {
        RunStops(events, i + 1, options);
        return Err(stopped.value), [];
      }
    }
    assert events[..|events|] == events;
    if state.stack.elements != [] || !state.sawRoot || !state.rootClosed {
      return Err(if state.stack.elements != [] then MalformedXml else InvalidXisf), [];
    }
    ranges := [];
    r := Finish(state.draft, state.extensions.items, options, rules);
    if r.Ok? {
      ranges := SortByOffset(state.attachedRanges);
      var ok := CheckRanges(ranges, 16 + headerLength, fileSize);
      if !ok {
        if Acceptable(state.attachedRanges, 16 + headerLength, fileSize) {
          AcceptableIsOrderFree(state.attachedRanges, ranges, 16 + headerLength, fileSize);
        }
        return Err(InvalidBlock), [];
      }
      AcceptableIsOrderFree(ranges, state.attachedRanges, 16 + headerLength, fileSize);
      ComposedDraft(state.draft, state.extensions.items);
      AcceptedIsNested(events, options);
      ValuesAtTheEnd(events, state.View());
      RecordsAtTheEnd(events, state.View(), r.value);
      BindingsAtTheEnd(events, state.draft, r.value);
      FinishedTables(state.draft, options, rules);
      StructuresAtTheEnd(events, state.draft, r.value);
      AllToldAtEnd(events, state.draft, r.value.draft, state.attachedRanges, options);
    }
  }

  /** One event; the error that stops the run, if one does. */
  method TakeEvent(state: XmlBuilder, events: seq<Event>, i: nat) returns (stopped: Option<ErrorCode>)
    requires state.Valid() && state.error.None? && i < |events|
    requires Follows(events, i, state.draft, state.stack.elements, state.attachedRanges, state.options)
    requires Valued(events, i, state.View()) && Listed(events, i, state.View()) && Tied(events, i, state.draft)
    requires Structured(events, i, state.draft)
    modifies state
    ensures state.Valid()
    ensures stopped.Some? ==> stopped.value == MalformedXml || HandlerCode(stopped.value)
    ensures stopped.None? ==> state.error.None?
                              && Follows(events, i + 1, state.draft, state.stack.elements, state.attachedRanges, state.options)
                              && Valued(events, i + 1, state.View()) && Listed(events, i + 1, state.View()) && Tied(events, i + 1, state.draft)
                              && Structured(events, i + 1, state.draft)
    ensures Unless(stopped, state.View()) == StepTaken(old(state.View()), events[i], state.options)
  {
    hide Follows, StartTaken, EndTaken, TextTaken, Valued, Elsewhere, GoesToEntry, Listed, Tied, Structured;
    ghost var s := state.View();
    match events[i] {
    case Start(tag) =>
      if state.rootClosed {
        return Some(MalformedXml);
      }
      TakeStart(state, events, i, tag);
      if state.error.None? {
        ValuedStart(events, i, s, tag, state.options);
        KeptStart(events, i, s, tag, state.options);
        TiedStart(events, i, s, tag, state.options);
        StructuredStart(events, i, s, tag, state.options);
      }
    case End(name) =>
      if state.stack.elements == [] || Top(state.stack.elements) != name {
        return Some(MalformedXml);
      }
      TakeEnd(state, events, i);
      if state.error.None? {
        ValuedEnd(events, i, s, name, state.options);
        KeptEnd(events, i, s, name, state.options);
        TiedEnd(events, i, s, name, state.options);
        StructuredEnd(events, i, s, name, state.options);
      }
    case Text(text, blank) =>
      if state.stack.elements != [] {
        ElsewhereIs(events, i, s, state.options);
        TakeText(state, events, i, text, blank);
        if state.error.None? {
          ValuedText(events, i, s, text, blank, state.options);
          KeptText(events, i, s, text, blank, state.options);
          TiedText(events, i, s, text, blank, state.options);
          StructuredText(events, i, s, text, blank, state.options);
        }
      } else if blank {
        FollowsBlank(events, i, state.draft, state.attachedRanges, state.options);
        ValuedBlank(events, i, s);
        KeptBlank(events, i, s);
        TiedBlank(events, i, s.draft);
        StructuredBlank(events, i, s.draft);
      } else {
        return Some(MalformedXml);
      }
    }
    return state.error;
  }

  /** White space outside the root. */
  lemma FollowsBlank(events: seq<Event>, n: nat, d: Draft, ranges: seq<AttachedRange>, options: HeaderOptions)
    requires Follows(events, n, d, [], ranges, options) && n < |events| && events[n].Text? && Consistent([], d, options)
    ensures Follows(events, n + 1, d, [], ranges, options)
  {
    ClosedFacts(d, options);
    hide Consistent, Follows, KeepsBlocks, SameBlocks;
    assert KeepsBlocks(d, d) by {
      TablesHaveNoBlocks(d, d.tables);
      SameBlocksKeeps(d, d);
    }
    FollowsText(events, n, d, d, [], ranges, options);
  }

  lemma FinishedTables(d: Draft, options: HeaderOptions, rules: ValueRules)
    requires Finishes(d, options, rules)
    ensures OneStructureEach(d.tables)
    ensures forall t | 0 <= t < |Resolved(d.tables).items| :: Resolved(d.tables).items[t].structure.Some?
  {
    hide OneStructureEach, Composes, ReferencesOk, StructureAfter, RowFits;
    var tables := Resolved(d.tables);
    forall t | 0 <= t < |tables.items|
      ensures tables.items[t].structure.Some?
    {
      assert TableComplete(tables.items[t], d.tables.structures, rules);
    }
  }

  lemma ComposedDraft(d: Draft, extensions: seq<Extension>)
    ensures var doc := Composed(d, Resolved(d.tables), extensions);
            doc.draft == d.(tables := Resolved(d.tables)) && doc.extensions == extensions
  {
  }
}
