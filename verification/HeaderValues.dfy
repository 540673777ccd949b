/**
 The values of Properties given as text. The parser remembers one Property that takes text, and forgets
 it at the end tag of any Property; a Property nested inside another one, in an element named `xisf`,
 therefore ends the outer one's text.
 */
module HeaderValues {
  import opened Base
  import opened HeaderStack
  import opened Locations
  import opened HeaderLists
  import opened HeaderDraft
  import opened HeaderDocument
  import opened HeaderEvents
  import E = EncodedText

  // ---------------------------------------------------------------- positions in a header

  predicate AreStarts(events: seq<Event>, open: seq<nat>) {
    forall m | 0 <= m < |open| :: open[m] < |events| && events[open[m]].Start?
  }

  /** Where the elements that are open after these events started, the innermost last. */
  function OpenStarts(events: seq<Event>): (open: seq<nat>)
    ensures AreStarts(events, open)
  {
    if events == [] then []
    else
      var before := OpenStarts(events[..|events| - 1]);
      match events[|events| - 1]
      case Start(_) => before + [|events| - 1]
      case End(_) => if before == [] then [] else before[..|before| - 1]
      case Text(_, _) => before
  }

  predicate IsEntry(tag: Tag) {
    tag.name == Property || tag.name == FitsKeyword
  }

  /** Where the Properties and FITS keywords started; the n-th of them is the n-th entry of the document. */
  function EntryStarts(events: seq<Event>): (starts: seq<nat>)
    ensures forall m | 0 <= m < |starts| :: starts[m] < |events| && events[starts[m]].Start? && IsEntry(events[starts[m]].tag)
  {
    if events == [] then []
    else
      var before := EntryStarts(events[..|events| - 1]);
      var e := events[|events| - 1];
      if e.Start? && IsEntry(e.tag) then before + [|events| - 1] else before
  }

  /** A Property that gives its value as text. */
  predicate TakesCharacters(tag: Tag) {
    tag.name == Property && FormOf(tag) == CharacterData
  }

  /** An element whose text is an encoded block. */
  predicate OpensBlock(tag: Tag) {
    tag.name == Data || ((tag.name == Property || tag.name == IccProfile) && BlockOf(tag).kind == InlineData)
  }

  /** Text at `k` is a block's, a cell's or an extension element's. */
  predicate Elsewhere(events: seq<Event>, k: nat)
    requires k <= |events|
  {
    var open := OpenStarts(events[..k]);
    || (exists m | 0 <= m < |open| :: events[open[m]].tag.name == Cell)
    || (open != [] && (OpensBlock(events[open[|open| - 1]].tag) || events[open[|open| - 1]].tag.name.Foreign?))
  }

  /** The element that starts at `p` is open after the first `k` events, and so is a Property with text of its own inside it. */
  predicate IsOpen(events: seq<Event>, p: nat, k: nat)
    requires k <= |events|
  {
    p in OpenStarts(events[..k])
  }

  predicate TakesAbove(events: seq<Event>, open: seq<nat>, p: nat)
    requires AreStarts(events, open)
  {
    exists m | 0 <= m < |open| :: open[m] > p && TakesCharacters(events[open[m]].tag)
  }

  predicate Interposed(events: seq<Event>, p: nat, k: nat)
    requires k <= |events|
  {
    TakesAbove(events, OpenStarts(events[..k]), p)
  }

  /** Text at `k` belongs to the element that starts at `p` and to nothing inside it. */
  predicate OwnText(events: seq<Event>, p: nat, k: nat)
    requires k <= |events|
  {
    IsOpen(events, p, k) && !Elsewhere(events, k) && !Interposed(events, p, k)
  }

  /** Between the start at `p` and `k`, some Property has ended. */
  predicate PropertyEndedSince(events: seq<Event>, p: nat, k: nat)
    requires k <= |events|
  {
    exists e | p < e < k :: EndsProperty(events[e])
  }

  datatype Choice = Owned | Kept

  /** Text that is a Property's own, or text that the parser puts there. */
  predicate Chosen(events: seq<Event>, c: Choice, p: nat, k: nat)
    requires k <= |events|
  {
    if c == Owned then OwnText(events, p, k) else Collected(events, p, k)
  }

  /** The chosen texts behind `p`, joined. */
  function Gather(events: seq<Event>, c: Choice, p: nat, n: nat): string
    requires n <= |events|
  {
    if n <= p + 1 then ""
    else Gather(events, c, p, n - 1) + if events[n - 1].Text? && Chosen(events, c, p, n - 1) then events[n - 1].text else ""
  }

  /** All text of a Property that is its own. */
  function OwnTextOf(events: seq<Event>, p: nat): string {
    Gather(events, Owned, p, |events|)
  }

  /** Some of it follows the end tag of a Property nested in the element. */
  predicate IsLate(events: seq<Event>, p: nat, k: nat)
    requires k < |events|
  {
    events[k].Text? && events[k].text != "" && OwnText(events, p, k) && PropertyEndedSince(events, p, k)
  }

  predicate HasLateText(events: seq<Event>, p: nat) {
    exists k | p < k < |events| :: IsLate(events, p, k)
  }

  // ---------------------------------------------------------------- what the parser remembers

  predicate Takes(e: Event) {
    e.Start? && TakesCharacters(e.tag)
  }

  predicate EndsProperty(e: Event) {
    e == End(Property)
  }

  /** The Property that text goes to, by where it started. */
  function Collector(events: seq<Event>): Option<nat> {
    if events == [] then None
    else
      var e := events[|events| - 1];
      if Takes(e) then Some(|events| - 1) else if EndsProperty(e) then None else Collector(events[..|events| - 1])
  }

  function CollectorAt(events: seq<Event>, k: nat): Option<nat>
    requires k <= |events|
  {
    Collector(events[..k])
  }

  predicate Collected(events: seq<Event>, p: nat, k: nat)
    requires k <= |events|
  {
    CollectorAt(events, k) == Some(p) && !Elsewhere(events, k)
  }

  /** What a Property or keyword that starts at `p` has as its value after the first `n` events. */
  function ValueAfter(events: seq<Event>, p: nat, n: nat): string
    requires p < n <= |events| && events[p].Start?
  {
    events[p].tag.value.GetOr("") + Gather(events, Kept, p, n)
  }

  /** Every end tag is that of the innermost element. */
  predicate Nested(events: seq<Event>) {
    forall e | 0 <= e < |events| && events[e].End? ::
      var open := OpenStarts(events[..e]);
      open != [] && events[open[|open| - 1]].tag.name == events[e].name
  }

  // ---------------------------------------------------------------- when it remembers right

  lemma OpenStartsStep(events: seq<Event>, k: nat)
    requires k < |events|
    ensures var before, after := OpenStarts(events[..k]), OpenStarts(events[..k + 1]);
            match events[k]
            case Start(_) => after == before + [k]
            case End(_) => after == if before == [] then [] else before[..|before| - 1]
            case Text(_, _) => after == before
    ensures forall j | j in OpenStarts(events[..k]) :: j < k && events[j].Start?
  {
    assert events[..k + 1][..k] == events[..k];
    var before := OpenStarts(events[..k]);
    forall j | j in before
      ensures j < k && events[j].Start?
    {
      assert events[..k][j] == events[j];
    }
  }

  lemma CollectorStep(events: seq<Event>, k: nat)
    requires k < |events|
    ensures CollectorAt(events, k + 1)
         == if Takes(events[k]) then Some(k) else if EndsProperty(events[k]) then None else CollectorAt(events, k)
  {
    assert events[..k + 1][..k] == events[..k];
  }

  predicate Remembered(events: seq<Event>, p: nat, k: nat)
    requires k <= |events|
  {
    IsOpen(events, p, k) && !Interposed(events, p, k) && !PropertyEndedSince(events, p, k)
  }

  lemma OneMore(events: seq<Event>, open: seq<nat>, k: nat, p: nat)
    requires AreStarts(events, open) && k < |events| && events[k].Start?
    ensures AreStarts(events, open + [k])
    ensures TakesAbove(events, open + [k], p) <==> TakesAbove(events, open, p) || (k > p && TakesCharacters(events[k].tag))
  {
    hide TakesCharacters;
    assert (open + [k])[|open|] == k;
    assert forall m | 0 <= m < |open| :: (open + [k])[m] == open[m];
  }

  lemma OneLess(events: seq<Event>, open: seq<nat>, p: nat)
    requires AreStarts(events, open) && open != [] && open[|open| - 1] != p && !TakesCharacters(events[open[|open| - 1]].tag)
    ensures var rest := open[..|open| - 1];
            && AreStarts(events, rest)
            && (p in rest <==> p in open) && (TakesAbove(events, rest, p) <==> TakesAbove(events, open, p))
  {
    hide TakesCharacters;
    assert open == open[..|open| - 1] + [open[|open| - 1]];
  }

  lemma RememberedAtStart(events: seq<Event>, p: nat, k: nat)
    requires p < k < |events| && events[k].Start?
    ensures Remembered(events, p, k + 1) <==> Remembered(events, p, k) && !TakesCharacters(events[k].tag)
  {
    OpenStartsStep(events, k);
    EndedStep(events, p, k);
    hide OpenStarts, AreStarts, TakesAbove, TakesCharacters, PropertyEndedSince;
    OneMore(events, OpenStarts(events[..k]), k, p);
  }

  lemma RememberedAtEnd(events: seq<Event>, p: nat, k: nat)
    requires p < k < |events| && events[k].End? && Nested(events) && events[p].Start? && events[p].tag.name == Property
    ensures Remembered(events, p, k + 1) <==> Remembered(events, p, k) && events[k].name != Property
  {
    OpenStartsStep(events, k);
    EndedStep(events, p, k);
    var before := OpenStarts(events[..k]);
    assert before != [] && events[before[|before| - 1]].tag.name == events[k].name;
    hide OpenStarts, TakesAbove, PropertyEndedSince, Nested, FormOf;
    if events[k].name != Property {
      OneLess(events, before, p);
    }
  }

  lemma RememberedStep(events: seq<Event>, p: nat, k: nat)
    requires p < k < |events| && Nested(events) && events[p].Start? && events[p].tag.name == Property
    ensures Remembered(events, p, k + 1) <==> Remembered(events, p, k) && !Takes(events[k]) && !EndsProperty(events[k])
  {
    match events[k]
    case Start(_) =>
      RememberedAtStart(events, p, k);
    case End(_) =>
      RememberedAtEnd(events, p, k);
    case Text(_, _) =>
      OpenStartsStep(events, k);
      EndedStep(events, p, k);
      hide OpenStarts, TakesAbove, PropertyEndedSince, Nested;
  }

  lemma EndedStep(events: seq<Event>, p: nat, k: nat)
    requires p < k < |events|
    ensures PropertyEndedSince(events, p, k + 1) <==> PropertyEndedSince(events, p, k) || EndsProperty(events[k])
  {
  }

  lemma RememberedAtFirst(events: seq<Event>, p: nat)
    requires p < |events| && events[p].Start?
    ensures Remembered(events, p, p + 1)
  {
    OpenStartsStep(events, p);
    hide OpenStarts, TakesCharacters;
    var after := OpenStarts(events[..p + 1]);
    assert after[|after| - 1] == p;
  }

  lemma CollectorAdvances(events: seq<Event>, p: nat, k: nat)
    requires p < k < |events| && Nested(events) && events[p].Start? && events[p].tag.name == Property
    requires CollectorAt(events, k) == Some(p) <==> Remembered(events, p, k)
    ensures CollectorAt(events, k + 1) == Some(p) <==> Remembered(events, p, k + 1)
  {
    CollectorStep(events, k);
    RememberedStep(events, p, k);
    hide CollectorAt, Remembered, TakesCharacters, Nested;
  }

  lemma CollectorBegins(events: seq<Event>, p: nat)
    requires p < |events| && events[p].Start? && TakesCharacters(events[p].tag)
    ensures CollectorAt(events, p + 1) == Some(p) && Remembered(events, p, p + 1)
  {
    CollectorStep(events, p);
    RememberedAtFirst(events, p);
    hide CollectorAt, Remembered;
  }

  /** A Property is the one that text goes to while it is open, nothing inside it takes text, and no Property inside it has ended. */
  lemma {:induction false} CollectorIs(events: seq<Event>, p: nat, k: nat)
    requires p < k <= |events| && Nested(events) && events[p].Start? && TakesCharacters(events[p].tag)
    ensures CollectorAt(events, k) == Some(p) <==> Remembered(events, p, k)
    decreases k
  {
    hide CollectorAt, Remembered, Nested;
    if k == p + 1 {
      CollectorBegins(events, p);
    } else {
      CollectorIs(events, p, k - 1);
      CollectorAdvances(events, p, k - 1);
    }
  }

  lemma CollectedIs(events: seq<Event>, p: nat, k: nat)
    requires p < k <= |events| && Nested(events) && events[p].Start? && TakesCharacters(events[p].tag)
    ensures Collected(events, p, k) <==> OwnText(events, p, k) && !PropertyEndedSince(events, p, k)
  {
    hide CollectorAt, IsOpen, Interposed, PropertyEndedSince, Elsewhere, TakesCharacters, Nested;
    CollectorIs(events, p, k);
  }

  // ---------------------------------------------------------------- gathering

  /** Fewer events give the same text only if the others have none. */
  lemma {:induction false} GatherFewer(events: seq<Event>, p: nat, n: nat)
    requires n <= |events| && forall k | p < k < n :: Chosen(events, Kept, p, k) ==> Chosen(events, Owned, p, k)
    ensures |Gather(events, Kept, p, n)| <= |Gather(events, Owned, p, n)|
    ensures |Gather(events, Kept, p, n)| == |Gather(events, Owned, p, n)| ==> forall k | p < k < n :: !IsLost(events, p, k)
    ensures (forall k | p < k < n :: !IsLost(events, p, k)) ==> Gather(events, Kept, p, n) == Gather(events, Owned, p, n)
  {
    hide Chosen;
    if n > p + 1 {
      GatherFewer(events, p, n - 1);
      assert IsLost(events, p, n - 1) || Chosen(events, Kept, p, n - 1) == Chosen(events, Owned, p, n - 1)
             || !events[n - 1].Text? || events[n - 1].text == "";
    }
  }

  /** The text that is put there is the front of a Property's own text, up to the first end of a Property since. */
  lemma {:induction false} GatherFront(events: seq<Event>, p: nat, n: nat)
    requires n <= |events|
    requires forall k | p < k < n ::
               Chosen(events, Kept, p, k) <==> Chosen(events, Owned, p, k) && !PropertyEndedSince(events, p, k)
    ensures Gather(events, Kept, p, n) <= Gather(events, Owned, p, n)
    ensures n > 0 && !PropertyEndedSince(events, p, n - 1) ==> Gather(events, Kept, p, n) == Gather(events, Owned, p, n)
  {
    hide Chosen;
    if n > p + 1 {
      GatherFront(events, p, n - 1);
      EndedEarlier(events, p, n);
    }
  }

  lemma EndedEarlier(events: seq<Event>, p: nat, n: nat)
    requires p + 1 < n <= |events|
    ensures PropertyEndedSince(events, p, n - 2) ==> PropertyEndedSince(events, p, n - 1)
  {
  }

  /** Text that is a Property's own and that the parser does not put there. */
  predicate IsLost(events: seq<Event>, p: nat, k: nat)
    requires k < |events|
  {
    events[k].Text? && events[k].text != "" && Chosen(events, Owned, p, k) && !Chosen(events, Kept, p, k)
  }

  // ---------------------------------------------------------------- the result about header events

  /**
   A Property that gives its value as text gets a front part of its own text, and exactly all of it if and
   only if none of it follows the end tag of a Property nested in the element.
   */
  lemma ValueIsOwnText(events: seq<Event>, p: nat)
    requires p < |events| && Nested(events) && events[p].Start? && TakesCharacters(events[p].tag)
    ensures ValueAfter(events, p, |events|) <= OwnTextOf(events, p)
    ensures ValueAfter(events, p, |events|) == OwnTextOf(events, p) <==> !HasLateText(events, p)
  {
    var n := |events|;
    forall k: nat | p < k < n
      ensures Chosen(events, Kept, p, k) <==> Chosen(events, Owned, p, k) && !PropertyEndedSince(events, p, k)
      ensures IsLost(events, p, k) <==> IsLate(events, p, k)
    {
      CollectedIs(events, p, k);
    }
    hide Chosen, IsLost, IsLate, TakesCharacters, Nested, PropertyEndedSince, Gather;
    GatherFewer(events, p, n);
    GatherFront(events, p, n);
    assert "" + Gather(events, Kept, p, n) == Gather(events, Kept, p, n);
  }

  // ---------------------------------------------------------------- what the handlers do with it

  function NamesAt(events: seq<Event>, open: seq<nat>): (names: seq<Name>)
    requires AreStarts(events, open)
    ensures |names| == |open|
  {
    seq(|open|, m requires 0 <= m < |open| => events[open[m]].tag.name)
  }

  predicate BlockOnTop(events: seq<Event>, open: seq<nat>)
    requires AreStarts(events, open)
  {
    open != [] && OpensBlock(events[open[|open| - 1]].tag)
  }

  /** What the entries of a draft have to do with the events before `n`. */
  predicate EntriesFollow(events: seq<Event>, n: nat, x: Entries)
    requires n <= |events|
  {
    var starts := EntryStarts(events[..n]);
    && |x.items| == |starts|
    && (forall i | 0 <= i < |starts| :: EntryFollows(events, starts[i], n, x.items[i]))
    && match CollectorAt(events, n)
       case None => x.open.None?
       case Some(p) => x.open.Some? && x.open.value < |starts| && starts[x.open.value] == p
  }

  predicate EntryFollows(events: seq<Event>, p: nat, n: nat, e: Entry)
    requires n <= |events|
  {
    p < n && events[p].Start? && e.value == ValueAfter(events, p, n)
  }

  /** The open block belongs to the innermost element. */
  predicate BlocksFollow(events: seq<Event>, n: nat, x: Encoded)
    requires n <= |events|
  {
    var open := OpenStarts(events[..n]);
    && AreStarts(events, open)
    && (!NoneOpen(x) <==> BlockOnTop(events, open))
    && forall m | 0 <= m < |open| - 1 :: !OpensBlock(events[open[m]].tag)
  }

  predicate Valued(events: seq<Event>, n: nat, s: State) {
    && n <= |events|
    && AreStarts(events, OpenStarts(events[..n])) && s.stack.elements == NamesAt(events, OpenStarts(events[..n]))
    && EntriesFollow(events, n, s.draft.metadata) && BlocksFollow(events, n, s.draft.encoded)
    && CollectorIsOpen(events, n)
  }

  predicate CollectorIsOpen(events: seq<Event>, n: nat)
    requires n <= |events|
  {
    var p := CollectorAt(events, n);
    p.Some? ==> p.value < |events| && events[p.value].Start? && events[p.value].tag.name == Property && IsOpen(events, p.value, n)
  }

  lemma CollectorOpenStep(events: seq<Event>, n: nat)
    requires n < |events| && CollectorIsOpen(events, n)
    requires events[n].End? ==>
               var open := OpenStarts(events[..n]);
               open != [] && events[open[|open| - 1]].tag.name == events[n].name
    ensures CollectorIsOpen(events, n + 1)
  {
    CollectorStep(events, n);
    OpenStartsStep(events, n);
    var before, after := OpenStarts(events[..n]), OpenStarts(events[..n + 1]);
    hide OpenStarts, CollectorAt;
    if events[n].Start? {
      assert after[|after| - 1] == n && forall j | j in before :: j in after;
    } else if events[n].End? {
      assert before == after + [before[|before| - 1]];
    }
  }

  lemma ValuedNothing(events: seq<Event>)
    ensures Valued(events, 0, Beginning)
  {
    assert events[..0] == [];
  }

  lemma StartedEntry(outer: seq<Name>, tag: Tag, isProperty: bool, d: Draft, options: HeaderOptions)
    requires EntryStarted(outer, tag, isProperty, d, options).Some? && NoneOpen(d.encoded)
    requires tag.name == if isProperty then Property else FitsKeyword
    ensures var e := EntryStarted(outer, tag, isProperty, d, options).value;
            (!NoneOpen(e.encoded) <==> OpensBlock(tag)) && EntriesStarted(tag, d.metadata, e.metadata)
  {
    hide ParseLocation, Emplace;
  }

  lemma StartedReference(outer: seq<Name>, tag: Tag, d: Draft, options: HeaderOptions)
    requires ReferenceStarted(outer, tag, d, options).Some?
    ensures var e := ReferenceStarted(outer, tag, d, options).value;
            e.encoded == d.encoded && e.metadata.items == d.metadata.items && e.metadata.open == d.metadata.open
  {
    hide TableReferenceAdded;
  }

  lemma StartedOwner(outer: seq<Name>, tag: Tag, d: Draft, options: HeaderOptions)
    requires NoneOpen(d.encoded)
    ensures var e := DataStarted(outer, tag, d); e.Some? ==> !NoneOpen(e.value.encoded) && e.value.metadata == d.metadata
    ensures var e := ProfileStarted(outer, tag, d, options); e.Some? ==>
              (!NoneOpen(e.value.encoded) <==> BlockOf(tag).kind == InlineData) && e.value.metadata == d.metadata
  {
    hide ParseLocation, ImageDataAdded, ThumbnailDataAdded, Emplace;
  }

  lemma StartedOther(outer: seq<Name>, tag: Tag, d: Draft, options: HeaderOptions)
    requires KindStarted(outer, tag, d, options).Some?
    requires !IsEntry(tag) && tag.name != Data && tag.name != IccProfile && tag.name != Reference
    ensures var e := KindStarted(outer, tag, d, options).value;
            e.encoded == d.encoded && e.metadata.items == d.metadata.items && e.metadata.open == d.metadata.open
  {
    hide TableAdded, StructureAdded, FieldAdded, RowAdded, CellAdded, ImageAdded, ThumbnailAdded, AncillaryAdded;
    hide EntryStarted, ReferenceStarted, DataStarted, ProfileStarted;
  }

  lemma StartedDraft(outer: seq<Name>, tag: Tag, d: Draft, options: HeaderOptions)
    requires KindStarted(outer, tag, d, options).Some? && NoneOpen(d.encoded)
    ensures var e := KindStarted(outer, tag, d, options).value;
            (!NoneOpen(e.encoded) <==> OpensBlock(tag)) && EntriesStarted(tag, d.metadata, e.metadata)
  {
    hide EntryStarted, ReferenceStarted, DataStarted, ProfileStarted, TakesCharacters;
    if tag.name == Property {
      StartedEntry(outer, tag, true, d, options);
    } else if tag.name == FitsKeyword {
      StartedEntry(outer, tag, false, d, options);
    } else if tag.name == Data || tag.name == IccProfile {
      StartedOwner(outer, tag, d, options);
    } else if tag.name == Reference {
      StartedReference(outer, tag, d, options);
    } else {
      StartedOther(outer, tag, d, options);
      hide KindStarted;
    }
  }

  /** An entry has its attribute as its value at first, and takes the text that follows if it is given as text. */
  predicate EntriesStarted(tag: Tag, x: Entries, y: Entries) {
    if IsEntry(tag) then
      && |y.items| == |x.items| + 1 && y.items[..|x.items|] == x.items && y.items[|x.items|].value == tag.value.GetOr("")
      && y.open == if TakesCharacters(tag) then Some(|x.items|) else x.open
    else y.items == x.items && y.open == x.open
  }

  lemma StartedState(s: State, tag: Tag, options: HeaderOptions)
    requires StartTaken(s, tag, options).Some?
    ensures var t := StartTaken(s, tag, options).value;
            && t.stack.elements == s.stack.elements + [tag.name] && NoneOpen(s.draft.encoded)
            && (!NoneOpen(t.draft.encoded) <==> OpensBlock(tag))
            && EntriesStarted(tag, s.draft.metadata, t.draft.metadata)
  {
    hide KindStarted, RangesOf, BadAttachment;
    var entered := Entered(s, tag, options).value;
    if entered.depth != 1 {
      var d := UidRegistered(tag, s.draft).value;
      StartedDraft(s.stack.elements, tag, d, options);
      hide OpensBlock, TakesCharacters;
    }
  }

  lemma OpenedList(events: seq<Event>, open: seq<nat>, k: nat)
    requires AreStarts(events, open) && k < |events| && events[k].Start?
    ensures AreStarts(events, open + [k]) && NamesAt(events, open + [k]) == NamesAt(events, open) + [events[k].tag.name]
    ensures BlockOnTop(events, open + [k]) <==> OpensBlock(events[k].tag)
    ensures (forall m | 0 <= m < |open| :: !OpensBlock(events[open[m]].tag)) ==>
              forall m | 0 <= m < |open + [k]| - 1 :: !OpensBlock(events[(open + [k])[m]].tag)
  {
    hide OpensBlock;
  }

  lemma ClosedList(events: seq<Event>, open: seq<nat>)
    requires AreStarts(events, open) && open != []
    ensures var rest := open[..|open| - 1];
            && AreStarts(events, rest) && NamesAt(events, rest) == NamesAt(events, open)[..|open| - 1]
            && ((forall m | 0 <= m < |open| - 1 :: !OpensBlock(events[open[m]].tag)) ==>
                  !BlockOnTop(events, rest) && forall m | 0 <= m < |rest| - 1 :: !OpensBlock(events[rest[m]].tag))
  {
    hide OpensBlock;
  }

  lemma ValuedStart(events: seq<Event>, n: nat, s: State, tag: Tag, options: HeaderOptions)
    requires Valued(events, n, s) && n < |events| && events[n] == Start(tag) && StartTaken(s, tag, options).Some?
    ensures Valued(events, n + 1, StartTaken(s, tag, options).value)
  {
    StartedState(s, tag, options);
    ValuedOpening(events, n, s, StartTaken(s, tag, options).value, tag);
  }

  lemma ValuedOpening(events: seq<Event>, n: nat, s: State, t: State, tag: Tag)
    requires Valued(events, n, s) && n < |events| && events[n] == Start(tag)
    requires t.stack.elements == s.stack.elements + [tag.name] && NoneOpen(s.draft.encoded)
    requires (!NoneOpen(t.draft.encoded) <==> OpensBlock(tag)) && EntriesStarted(tag, s.draft.metadata, t.draft.metadata)
    ensures Valued(events, n + 1, t)
  {
    OpenStartsStep(events, n);
    EntriesAtStart(events, n, s.draft.metadata, t.draft.metadata, tag);
    BlocksAtStart(events, n, s.draft.encoded, t.draft.encoded);
    CollectorOpenStep(events, n);
    OpenedList(events, OpenStarts(events[..n]), n);
    hide OpensBlock, OpenStarts, NoneOpen, EntriesFollow, BlocksFollow, EntriesStarted, NamesAt, CollectorIsOpen;
  }

  lemma BlocksAtStart(events: seq<Event>, n: nat, x: Encoded, y: Encoded)
    requires n < |events| && events[n].Start? && BlocksFollow(events, n, x) && NoneOpen(x)
    requires !NoneOpen(y) <==> OpensBlock(events[n].tag)
    ensures BlocksFollow(events, n + 1, y)
  {
    OpenStartsStep(events, n);
    OpenedList(events, OpenStarts(events[..n]), n);
    hide OpensBlock, OpenStarts, NoneOpen;
  }

  lemma EntriesAtStart(events: seq<Event>, n: nat, x: Entries, y: Entries, tag: Tag)
    requires n < |events| && events[n] == Start(tag) && EntriesFollow(events, n, x) && EntriesStarted(tag, x, y)
    ensures EntriesFollow(events, n + 1, y)
  {
    EntryStartsStep(events, n);
    CollectorStep(events, n);
    var starts := EntryStarts(events[..n]);
    hide EntryStarts, CollectorAt, TakesCharacters, Gather, IsEntry;
    forall i | 0 <= i < |starts|
      ensures EntryFollows(events, starts[i], n + 1, y.items[i])
    {
      assert EntryFollows(events, starts[i], n, x.items[i]) && y.items[i] == x.items[i];
      SameValue(events, starts[i], n);
    }
    if IsEntry(tag) {
      FirstValue(events, n);
    }
  }

  lemma EntryStartsStep(events: seq<Event>, n: nat)
    requires n < |events|
    ensures EntryStarts(events[..n + 1])
         == EntryStarts(events[..n]) + if events[n].Start? && IsEntry(events[n].tag) then [n] else []
  {
    assert events[..n + 1][..n] == events[..n];
  }

  lemma SameValue(events: seq<Event>, p: nat, n: nat)
    requires p < n < |events| && events[p].Start? && (events[n].Text? ==> events[n].text == "" || !Collected(events, p, n))
    ensures ValueAfter(events, p, n + 1) == ValueAfter(events, p, n)
  {
    hide Collected;
  }

  lemma FirstValue(events: seq<Event>, p: nat)
    requires p < |events| && events[p].Start?
    ensures ValueAfter(events, p, p + 1) == events[p].tag.value.GetOr("")
  {
  }

  lemma EndedDraft(n: Name, d: Draft, options: HeaderOptions)
    requires ElementEnded(n, d, options).Some?
    ensures var e := ElementEnded(n, d, options).value;
            && e.metadata.items == d.metadata.items
            && e.metadata.open == if n == Property then None else d.metadata.open
  {
    hide EndsBlock, TablePartEnded, ThumbnailClosed, ImageClosed;
  }

  /** The handlers leave no block open behind an end tag. */
  lemma ValuedEnd(events: seq<Event>, n: nat, s: State, name: Name, options: HeaderOptions)
    requires Valued(events, n, s) && n < |events| && events[n] == End(name) && s.stack.elements != [] && Top(s.stack.elements) == name
    requires EndTaken(s, options).Some? && NoneOpen(EndTaken(s, options).value.draft.encoded)
    ensures Valued(events, n + 1, EndTaken(s, options).value)
  {
    var t := EndTaken(s, options).value;
    EndedDraft(name, s.draft, options);
    OpenStartsStep(events, n);
    hide ElementEnded;
    EntriesAtEnd(events, n, s.draft.metadata, t.draft.metadata, name);
    ClosedList(events, OpenStarts(events[..n]));
    assert events[OpenStarts(events[..n])[|OpenStarts(events[..n])| - 1]].tag.name == name;
    CollectorOpenStep(events, n);
    hide OpensBlock, OpenStarts, NoneOpen, EntriesFollow, NamesAt, CollectorIsOpen;
  }

  lemma EntriesAtEnd(events: seq<Event>, n: nat, x: Entries, y: Entries, name: Name)
    requires n < |events| && events[n] == End(name) && EntriesFollow(events, n, x)
    requires y.items == x.items && y.open == if name == Property then None else x.open
    ensures EntriesFollow(events, n + 1, y)
  {
    EntryStartsStep(events, n);
    CollectorStep(events, n);
    var starts := EntryStarts(events[..n]);
    hide EntryStarts, CollectorAt, Gather;
    forall i | 0 <= i < |starts|
      ensures EntryFollows(events, starts[i], n + 1, y.items[i])
    {
      assert EntryFollows(events, starts[i], n, x.items[i]);
      SameValue(events, starts[i], n);
    }
  }

  /** Text is an entry's if no block, cell or extension element is there to take it. */
  predicate GoesToEntry(s: State) {
    NoneOpen(s.draft.encoded) && s.draft.tables.openCell.None? && OpenExtension(s.stack).None?
  }

  predicate EntriesTexted(x: Entries, text: string, y: Entries) {
    && y.open == x.open
    && (x.open.None? ==> y.items == x.items)
    && (x.open.Some? ==>
          var i := x.open.value;
          i < |x.items| && y.items == x.items[i := x.items[i].(value := x.items[i].value + text)])
  }

  lemma TextedState(s: State, text: string, blank: bool, options: HeaderOptions)
    requires TextTaken(s, text, blank, options).Some?
    ensures var t := TextTaken(s, text, blank, options).value;
            && t.stack == s.stack && (NoneOpen(t.draft.encoded) <==> NoneOpen(s.draft.encoded))
            && (if text != "" && GoesToEntry(s) then EntriesTexted(s.draft.metadata, text, t.draft.metadata)
                else t.draft.metadata.items == s.draft.metadata.items && t.draft.metadata.open == s.draft.metadata.open)
  {
    hide TextAllowed, TablesOpen, WithCellText, E.Feed;
  }

  lemma ElsewhereIs(events: seq<Event>, n: nat, s: State, options: HeaderOptions)
    requires Valued(events, n, s) && Consistent(s.stack.elements, s.draft, options) && Heights(s.stack, s.depth, |s.extensions.items|)
    ensures Elsewhere(events, n) <==> !GoesToEntry(s)
  {
    var open := OpenStarts(events[..n]);
    CellIsOpen(s.stack.elements, s.draft, options);
    hide Consistent, OpensBlock, NoneOpen, EntriesFollow, OpenStarts, CollectorIsOpen;
    HasCell(events, open);
    ExtensionOnTop(s.stack, s.depth, |s.extensions.items|);
    if open != [] {
      LastName(events, open);
    }
    hide NamesAt, Heights;
  }

  lemma HasCell(events: seq<Event>, open: seq<nat>)
    requires AreStarts(events, open)
    ensures Cell in NamesAt(events, open) <==> exists m | 0 <= m < |open| :: events[open[m]].tag.name == Cell
  {
    var names := NamesAt(events, open);
    assert forall m | 0 <= m < |open| :: names[m] == events[open[m]].tag.name;
  }

  lemma ExtensionOnTop(s: Stack, depth: nat, extensions: nat)
    requires Heights(s, depth, extensions) && (s.elements != [] ==> s.elements[0] == Xisf)
    ensures OpenExtension(s).Some? <==> s.elements != [] && Top(s.elements).Foreign?
  {
  }

  lemma CellIsOpen(elements: seq<Name>, d: Draft, options: HeaderOptions)
    requires Consistent(elements, d, options)
    ensures d.tables.openCell.Some? <==> Cell in elements
    ensures elements != [] ==> elements[0] == Xisf
  {
    hide ListsOk;
    if elements != [] {
      assert Placed(elements, 0);
    }
  }

  lemma ValuedText(events: seq<Event>, n: nat, s: State, text: string, blank: bool, options: HeaderOptions)
    requires Valued(events, n, s) && n < |events| && events[n] == Text(text, blank) && TextTaken(s, text, blank, options).Some?
    requires Elsewhere(events, n) <==> !GoesToEntry(s)
    ensures Valued(events, n + 1, TextTaken(s, text, blank, options).value)
  {
    var t := TextTaken(s, text, blank, options).value;
    TextedState(s, text, blank, options);
    OpenStartsStep(events, n);
    CollectorOpenStep(events, n);
    EntriesAtText(events, n, s.draft.metadata, t.draft.metadata);
    hide TextTaken, OpensBlock, OpenStarts, NoneOpen, EntriesFollow, NamesAt, CollectorIsOpen, EntriesTexted, Elsewhere;
  }

  /** White space outside the root. */
  lemma ValuedBlank(events: seq<Event>, n: nat, s: State)
    requires Valued(events, n, s) && n < |events| && events[n].Text? && s.stack.elements == []
    ensures Valued(events, n + 1, s)
  {
    OpenStartsStep(events, n);
    CollectorOpenStep(events, n);
    assert CollectorAt(events, n).None?;
    EntriesAtText(events, n, s.draft.metadata, s.draft.metadata);
    hide OpensBlock, NoneOpen, EntriesFollow, CollectorIsOpen;
  }

  lemma EntriesAtText(events: seq<Event>, n: nat, x: Entries, y: Entries)
    requires n < |events| && events[n].Text? && EntriesFollow(events, n, x)
    requires if events[n].text != "" && CollectorAt(events, n).Some? && !Elsewhere(events, n) then EntriesTexted(x, events[n].text, y)
             else y.items == x.items && y.open == x.open
    ensures EntriesFollow(events, n + 1, y)
  {
    EntryStartsStep(events, n);
    CollectorStep(events, n);
    EntryStartsDiffer(events[..n]);
    var starts := EntryStarts(events[..n]);
    hide EntryStarts, CollectorAt, Gather, Elsewhere;
    forall i | 0 <= i < |starts|
      ensures EntryFollows(events, starts[i], n + 1, y.items[i])
    {
      assert EntryFollows(events, starts[i], n, x.items[i]);
      if events[n].text == "" || !Collected(events, starts[i], n) {
        SameValue(events, starts[i], n);
      } else {
        MoreValue(events, starts[i], n);
      }
    }
  }

  lemma MoreValue(events: seq<Event>, p: nat, n: nat)
    requires p < n < |events| && events[p].Start? && events[n].Text? && Collected(events, p, n)
    ensures ValueAfter(events, p, n + 1) == ValueAfter(events, p, n) + events[n].text
  {
    hide Collected;
  }

  predicate Increasing(starts: seq<nat>) {
    forall m, n | 0 <= m < n < |starts| :: starts[m] < starts[n]
  }

  lemma {:induction false} EntryStartsDiffer(events: seq<Event>)
    ensures Increasing(EntryStarts(events))
    decreases |events|
  {
    if events != [] {
      var front := events[..|events| - 1];
      EntryStartsDiffer(front);
      var before := EntryStarts(front);
      assert forall m | 0 <= m < |before| :: before[m] < |front|;
      assert EntryStarts(events) == before || EntryStarts(events) == before + [|front|];
    }
  }

  // ---------------------------------------------------------------- accepted headers are nested

  lemma {:induction false} AcceptedIsNested(events: seq<Event>, options: HeaderOptions)
    requires RunOf(events, options).Some?
    ensures Nested(events) && RunOf(events, options).value.stack.elements == NamesAt(events, OpenStarts(events))
    decreases |events|
  {
    if events != [] {
      var front := events[..|events| - 1];
      AcceptedIsNested(front, options);
      StackStep(RunOf(front, options).value, events[|events| - 1], options);
      hide StepTaken, Nested, NamesAt;
      NestedStep(events, RunOf(front, options).value.stack.elements, RunOf(events, options).value.stack.elements);
    }
  }

  predicate StackMoves(e: Event, before: seq<Name>, after: seq<Name>) {
    match e
    case Start(tag) => after == before + [tag.name]
    case End(name) => before != [] && Top(before) == name && after == before[..|before| - 1]
    case Text(_, _) => after == before
  }

  lemma NestedStep(events: seq<Event>, names: seq<Name>, names': seq<Name>)
    requires events != []
    requires var front := events[..|events| - 1]; Nested(front) && names == NamesAt(front, OpenStarts(front))
    requires StackMoves(events[|events| - 1], names, names')
    ensures Nested(events) && names' == NamesAt(events, OpenStarts(events))
  {
    var n := |events| - 1;
    var before := OpenStarts(events[..n]);
    assert events[..n + 1] == events;
    OpenStartsStep(events, n);
    NamesOfFront(events, before, n);
    hide OpenStarts, NamesAt, Nested;
    if events[n].Start? {
      OpenedList(events, before, n);
    } else if events[n].End? {
      ClosedList(events, before);
      LastName(events, before);
    }
    NestedFront(events);
  }

  lemma NamesOfFront(events: seq<Event>, open: seq<nat>, n: nat)
    requires n <= |events| && AreStarts(events[..n], open)
    ensures AreStarts(events, open) && NamesAt(events, open) == NamesAt(events[..n], open)
  {
  }

  lemma LastName(events: seq<Event>, open: seq<nat>)
    requires AreStarts(events, open) && open != []
    ensures Top(NamesAt(events, open)) == events[open[|open| - 1]].tag.name
  {
  }

  lemma NestedFront(events: seq<Event>)
    requires events != [] && Nested(events[..|events| - 1])
    requires events[|events| - 1].End? ==>
               var open := OpenStarts(events[..|events| - 1]);
               open != [] && events[open[|open| - 1]].tag.name == events[|events| - 1].name
    ensures Nested(events)
  {
    hide OpenStarts;
    var front := events[..|events| - 1];
    forall e | 0 <= e < |front| && events[e].End?
      ensures var open := OpenStarts(events[..e]);
              open != [] && events[open[|open| - 1]].tag.name == events[e].name
    {
      assert events[..e] == front[..e] && front[e] == events[e];
      var open := OpenStarts(front[..e]);
      assert open != [] && front[open[|open| - 1]] == events[open[|open| - 1]];
    }
  }

  lemma StackStep(s: State, e: Event, options: HeaderOptions)
    requires StepTaken(s, e, options).Some?
    ensures StackMoves(e, s.stack.elements, StepTaken(s, e, options).value.stack.elements)
  {
    hide ElementEnded, ElementStarted, BlockTextTaken, TextAllowed, DraftWithText, ExtensionsWithText, BadAttachment;
  }

  // ---------------------------------------------------------------- the values of an accepted document

  /**
   One entry for each Property and FITS keyword, in order. Its value is its attribute; one that is given
   as text has a front part of its own text, and exactly all of it if and only if none of that follows the
   end of a nested Property.
   */
  predicate ValuesOf(events: seq<Event>, items: seq<Entry>) {
    var starts := EntryStarts(events);
    && |items| == |starts|
    && forall i | 0 <= i < |items| :: ValueOf(events, starts[i], items[i])
  }

  predicate ValueOf(events: seq<Event>, p: nat, e: Entry) {
    && p < |events| && events[p].Start?
    && if TakesCharacters(events[p].tag) then e.value <= OwnTextOf(events, p) && (e.value == OwnTextOf(events,
        p) <==> !HasLateText(events, p))
       else e.value == events[p].tag.value.GetOr("")
  }

  lemma ValuesAtTheEnd(events: seq<Event>, s: State)
    requires Nested(events) && Valued(events, |events|, s)
    ensures ValuesOf(events, s.draft.metadata.items)
  {
    var x := s.draft.metadata;
    assert events[..|events|] == events;
    hide CollectorAt, EntryStarts, Nested;
    var starts := EntryStarts(events);
    forall i | 0 <= i < |x.items|
      ensures ValueOf(events, starts[i], x.items[i])
    {
      assert EntryFollows(events, starts[i], |events|, x.items[i]);
      OneValue(events, starts[i], x.items[i]);
    }
  }

  lemma OneValue(events: seq<Event>, p: nat, e: Entry)
    requires Nested(events) && p < |events| && EntryFollows(events, p, |events|, e)
    ensures ValueOf(events, p, e)
  {
    if TakesCharacters(events[p].tag) {
      hide Nested, Gather, HasLateText;
      ValueIsOwnText(events, p);
    } else {
      hide Nested, Collected, OwnTextOf, HasLateText, TakesCharacters;
      NothingKept(events, p, |events|);
    }
  }

  /** Text goes to no other kind of element. */
  lemma {:induction false} NothingKept(events: seq<Event>, p: nat, n: nat)
    requires p < |events| && n <= |events| && (events[p].Start? ==> !TakesCharacters(events[p].tag))
    ensures Gather(events, Kept, p, n) == ""
  {
    hide CollectorAt, Elsewhere, TakesCharacters;
    if n > p + 1 {
      NothingKept(events, p, n - 1);
      CollectorTakes(events, n - 1);
    }
  }

  lemma {:induction false} CollectorTakes(events: seq<Event>, k: nat)
    requires k <= |events|
    ensures CollectorAt(events, k).Some? ==>
              var p := CollectorAt(events, k).value; p < k && events[p].Start? && TakesCharacters(events[p].tag)
    decreases k
  {
    if k == 0 {
      assert events[..0] == [];
    } else {
      CollectorTakes(events, k - 1);
      CollectorStep(events, k - 1);
      hide CollectorAt, TakesCharacters;
    }
  }
}
