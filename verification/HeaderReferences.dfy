/** What references, uids and the Metadata element of a header ask of its acceptance, said of its tags. */
module HeaderReferences {
  import opened Base
  import opened HeaderStack
  import opened HeaderLists
  import opened HeaderDraft
  import opened HeaderDocument
  import opened HeaderEvents
  import opened Ranges
  import E = EncodedText

  /** This event declares a core element with this uid. */
  predicate Declares(e: Event, uid: string) {
    e.Start? && IsCore(e.tag.name) && e.tag.uid == uid && uid != ""
  }

  predicate Refers(e: Event) {
    e.Start? && e.tag.name == Reference
  }

  predicate IsMetadata(e: Event) {
    e.Start? && e.tag.name == Metadata
  }

  /** The innermost element that is open behind these events. */
  function Around(events: seq<Event>): Option<Name> {
    var open := OpenAfter(events);
    if open == [] then None else Some(Top(open))
  }

  /** A Property of the Metadata element with this role. */
  predicate GivesRole(e: Event, around: Option<Name>, role: Role) {
    e.Start? && e.tag.name == Property && e.tag.role == role && around == Some(Metadata)
  }

  // ---------------------------------------------------------------- the conditions

  /** No two core elements have the same uid. */
  predicate UidsDiffer(events: seq<Event>) {
    forall p, q | 0 <= p < q < |events| && events[p].Start? && Declares(events[p], events[p].tag.uid) ::
      !Declares(events[q], events[p].tag.uid)
  }

  predicate Declared(events: seq<Event>, uid: string) {
    exists q :: 0 <= q < |events| && Declares(events[q], uid)
  }

  predicate ThumbnailDeclared(events: seq<Event>, uid: string) {
    exists q :: 0 <= q < |events| && Declares(events[q], uid) && events[q].tag.name == Thumbnail
  }

  /** Every Reference names a core element, and one inside a Thumbnail no thumbnail. */
  predicate ReferencesName(events: seq<Event>) {
    forall p: nat | p < |events| && Refers(events[p]) ::
      && Declared(events, events[p].tag.id)
      && (Around(events[..p]) == Some(Thumbnail) ==> !ThumbnailDeclared(events, events[p].tag.id))
  }

  predicate SomeMetadata(events: seq<Event>) {
    exists p :: 0 <= p < |events| && IsMetadata(events[p])
  }

  predicate OneMetadata(events: seq<Event>) {
    forall p, q | 0 <= p < q < |events| :: !(IsMetadata(events[p]) && IsMetadata(events[q]))
  }

  predicate RoleGiven(events: seq<Event>, role: Role) {
    exists p: nat :: p < |events| && GivesRole(events[p], Around(events[..p]), role)
  }

  predicate GivenOnce(events: seq<Event>, role: Role) {
    forall p, q | 0 <= p < q < |events| ::
      !(GivesRole(events[p], Around(events[..p]), role) && GivesRole(events[q], Around(events[..q]), role))
  }

  // ---------------------------------------------------------------- what the run notes

  predicate Referred(events: seq<Event>, id: string) {
    exists p :: 0 <= p < |events| && Refers(events[p]) && events[p].tag.id == id
  }

  predicate ThumbnailReferred(events: seq<Event>, id: string) {
    exists p: nat :: p < |events| && Refers(events[p]) && events[p].tag.id == id && Around(events[..p]) == Some(Thumbnail)
  }

  /** The uids and the references that a draft has noted are those of these events. */
  ghost predicate NamesNoted(events: seq<Event>, d: Draft) {
    && (forall uid :: uid in d.coreUids <==> Declared(events, uid))
    && (forall uid :: uid in d.thumbnails.uids <==> ThumbnailDeclared(events, uid))
    && (forall id :: id in d.references <==> Referred(events, id))
    && (forall id :: id in d.thumbnailReferences <==> ThumbnailReferred(events, id))
  }

  /** The Metadata element and its mandatory values are noted, and none of them came twice. */
  predicate MetadataNoted(events: seq<Event>, x: Entries) {
    && x.elements == (if SomeMetadata(events) then 1 else 0) && OneMetadata(events)
    && (x.creationTime <==> RoleGiven(events, CreationTime)) && GivenOnce(events, CreationTime)
    && (x.creatorApplication <==> RoleGiven(events, CreatorApplication)) && GivenOnce(events, CreatorApplication)
  }

  ghost predicate Noted(events: seq<Event>, open: seq<Name>, d: Draft) {
    open == OpenAfter(events) && UidsDiffer(events) && NamesNoted(events, d) && MetadataNoted(events, d.metadata)
  }

  /** What one start tag adds to the notes. */
  predicate NotesGrow(tag: Tag, around: Option<Name>, d: Draft, e: Draft) {
    && e.references == d.references + (if tag.name == Reference then [tag.id] else [])
    && e.thumbnailReferences == d.thumbnailReferences + (if tag.name == Reference && around == Some(Thumbnail) then [tag.id] else [])
    && e.thumbnails.uids == (if tag.name == Thumbnail then Emplace(d.thumbnails.uids, tag.uid, |d.thumbnails.items|) else d.thumbnails.uids)
    && e.metadata.elements == d.metadata.elements + (if tag.name == Metadata then 1 else 0)
    && (tag.name == Metadata ==> d.metadata.elements == 0)
    && RoleGrows(d.metadata.creationTime, e.metadata.creationTime, GivesRole(Start(tag), around, CreationTime))
    && RoleGrows(d.metadata.creatorApplication, e.metadata.creatorApplication, GivesRole(Start(tag), around, CreatorApplication))
  }

  predicate RoleGrows(before: bool, after: bool, given: bool) {
    (after <==> before || given) && !(before && given)
  }

  /** Nothing but values and places has changed. */
  predicate SameNotes(d: Draft, e: Draft) {
    && e.coreUids == d.coreUids && e.references == d.references && e.thumbnailReferences == d.thumbnailReferences
    && e.thumbnails.uids == d.thumbnails.uids && e.metadata.elements == d.metadata.elements
    && e.metadata.creationTime == d.metadata.creationTime && e.metadata.creatorApplication == d.metadata.creatorApplication
  }

  // ---------------------------------------------------------------- the handlers

  lemma ReferenceNotes(outer: seq<Name>, tag: Tag, d: Draft, options: HeaderOptions)
    requires outer != [] && tag.name == Reference && ReferenceStarted(outer, tag, d, options).Some?
    ensures var e := ReferenceStarted(outer, tag, d, options).value;
            e.coreUids == d.coreUids && NotesGrow(tag, Some(Top(outer)), d, e)
  {
  }

  lemma EntryNotes(outer: seq<Name>, tag: Tag, d: Draft, options: HeaderOptions)
    requires outer != [] && (tag.name == Property || tag.name == FitsKeyword)
    requires EntryStarted(outer, tag, tag.name == Property, d, options).Some?
    ensures var e := EntryStarted(outer, tag, tag.name == Property, d, options).value;
            e.coreUids == d.coreUids && NotesGrow(tag, Some(Top(outer)), d, e)
  {
    hide Emplace, InlineProperty, EntryOf;
  }

  lemma KindNotes(outer: seq<Name>, tag: Tag, d: Draft, options: HeaderOptions)
    requires outer != [] && KindStarted(outer, tag, d, options).Some?
    ensures var e := KindStarted(outer, tag, d, options).value;
            e.coreUids == d.coreUids && NotesGrow(tag, Some(Top(outer)), d, e)
  {
    if tag.name == Reference {
      ReferenceNotes(outer, tag, d, options);
    } else if tag.name == Property || tag.name == FitsKeyword {
      EntryNotes(outer, tag, d, options);
    }
    hide ReferenceStarted, EntryStarted, Emplace, TableAdded, StructureAdded, FieldAdded, RowAdded, CellAdded, ProfileAdded, AncillaryAdded;
  }

  lemma EndNotes(n: Name, d: Draft, options: HeaderOptions)
    requires ElementEnded(n, d, options).Some?
    ensures SameNotes(d, ElementEnded(n, d, options).value)
  {
    hide EndsBlock, TablePartEnded;
  }

  lemma TextNotes(s: State, text: string, blank: bool, options: HeaderOptions)
    requires TextTaken(s, text, blank, options).Some?
    ensures var t := TextTaken(s, text, blank, options).value;
            SameNotes(s.draft, t.draft) && t.stack == s.stack && t.depth == s.depth
  {
    if text != "" && !NoneOpen(s.draft.encoded) {
      BytesNotes(s.draft, E.Feed(RulesOf(s.draft.encoded, options), s.draft.encoded.decoding, text).output);
    }
    hide TextAllowed, WithCellText, TextReady, WithBytes;
  }

  lemma BytesNotes(d: Draft, bytes: Bytes)
    ensures SameNotes(d, WithBytes(d, bytes))
  {
  }

  // ---------------------------------------------------------------- one more event

  lemma DeclaredStep(front: seq<Event>, e: Event, uid: string)
    ensures Declared(front + [e], uid) <==> Declared(front, uid) || Declares(e, uid)
    ensures ThumbnailDeclared(front + [e], uid) <==> ThumbnailDeclared(front, uid) || (Declares(e, uid) && e.tag.name == Thumbnail)
  {
    hide Declares;
    var events := front + [e];
    assert events[|front|] == e && forall q | 0 <= q < |front| :: events[q] == front[q];
  }

  lemma ReferredStep(front: seq<Event>, e: Event, id: string)
    ensures Referred(front + [e], id) <==> Referred(front, id) || (Refers(e) && e.tag.id == id)
    ensures ThumbnailReferred(front + [e], id)
       <==> ThumbnailReferred(front, id) || (Refers(e) && e.tag.id == id && Around(front) == Some(Thumbnail))
  {
    hide Around;
    var events := front + [e];
    assert events[|front|] == e && events[..|front|] == front;
    assert forall p | 0 <= p < |front| :: events[p] == front[p] && events[..p] == front[..p];
  }

  lemma MetadataStep(front: seq<Event>, e: Event)
    ensures SomeMetadata(front + [e]) <==> SomeMetadata(front) || IsMetadata(e)
    ensures OneMetadata(front + [e]) <==> OneMetadata(front) && !(SomeMetadata(front) && IsMetadata(e))
  {
    hide IsMetadata;
    var events := front + [e];
    assert events[|front|] == e && forall q | 0 <= q < |front| :: events[q] == front[q];
  }

  lemma RoleStep(front: seq<Event>, e: Event, role: Role)
    ensures RoleGiven(front + [e], role) <==> RoleGiven(front, role) || GivesRole(e, Around(front), role)
    ensures GivenOnce(front + [e], role) <==> GivenOnce(front, role) && !(RoleGiven(front, role) && GivesRole(e, Around(front), role))
  {
    hide Around, GivesRole;
    var events := front + [e];
    assert events[|front|] == e && events[..|front|] == front;
    assert forall p | 0 <= p < |front| :: events[p] == front[p] && events[..p] == front[..p];
  }

  lemma UidsStep(front: seq<Event>, e: Event)
    requires UidsDiffer(front) && (e.Start? ==> !(Declares(e, e.tag.uid) && Declared(front, e.tag.uid)))
    ensures UidsDiffer(front + [e])
  {
    var events := front + [e];
    assert events[|front|] == e && forall q | 0 <= q < |front| :: events[q] == front[q];
  }

  /** The notes after a start tag. `uids` are the uids noted before. */
  lemma NotedStart(front: seq<Event>, open: seq<Name>, tag: Tag, d: Draft, registered: Draft, e: Draft)
    requires Noted(front, open, d) && open != [] && UidRegistered(tag, d) == Some(registered)
    requires e.coreUids == registered.coreUids && NotesGrow(tag, Some(Top(open)), registered, e)
    ensures Noted(front + [Start(tag)], open + [tag.name], e)
  {
    var last := Start(tag);
    var events := front + [last];
    assert events[..|front|] == front;
    assert Around(front) == Some(Top(open));
    UidsStep(front, last);
    MetadataStep(front, last);
    RoleStep(front, last, CreationTime);
    RoleStep(front, last, CreatorApplication);
    NamesNotedStart(front, tag, d, registered, e);
    hide UidsDiffer, NamesNoted, SomeMetadata, OneMetadata, RoleGiven, GivenOnce, GivesRole;
  }

  lemma NamesNotedStart(front: seq<Event>, tag: Tag, d: Draft, registered: Draft, e: Draft)
    requires NamesNoted(front, d) && UidRegistered(tag, d) == Some(registered)
    requires e.coreUids == registered.coreUids && NotesGrow(tag, Around(front), registered, e)
    ensures NamesNoted(front + [Start(tag)], e)
  {
    hide Declared, ThumbnailDeclared, Referred, ThumbnailReferred, RoleGrows, Around;
    var last := Start(tag);
    var events := front + [last];
    forall uid: string
      ensures uid in e.coreUids <==> Declared(events, uid)
      ensures uid in e.thumbnails.uids <==> ThumbnailDeclared(events, uid)
    {
      DeclaredStep(front, last, uid);
    }
    forall id: string
      ensures id in e.references <==> Referred(events, id)
      ensures id in e.thumbnailReferences <==> ThumbnailReferred(events, id)
    {
      ReferredStep(front, last, id);
    }
  }

  /** The root's tag, an end tag or text adds nothing. */
  predicate Quiet(e: Event) {
    e.Start? ==> e.tag.name == Xisf
  }

  lemma NamesNotedQuiet(front: seq<Event>, last: Event, d: Draft, e: Draft)
    requires NamesNoted(front, d) && Quiet(last) && SameNotes(d, e)
    ensures NamesNoted(front + [last], e)
  {
    hide Declared, ThumbnailDeclared, Referred, ThumbnailReferred, Around;
    forall name: string
      ensures name in e.coreUids <==> Declared(front + [last], name)
      ensures name in e.thumbnails.uids <==> ThumbnailDeclared(front + [last], name)
    {
      DeclaredStep(front, last, name);
    }
    forall name: string
      ensures name in e.references <==> Referred(front + [last], name)
      ensures name in e.thumbnailReferences <==> ThumbnailReferred(front + [last], name)
    {
      ReferredStep(front, last, name);
    }
  }

  lemma NotedQuiet(front: seq<Event>, open: seq<Name>, last: Event, d: Draft, e: Draft)
    requires Noted(front, open, d) && Quiet(last) && SameNotes(d, e)
    ensures Noted(front + [last], OpenAfter(front + [last]), e)
  {
    NamesNotedQuiet(front, last, d, e);
    UidsStep(front, last);
    MetadataStep(front, last);
    RoleStep(front, last, CreationTime);
    RoleStep(front, last, CreatorApplication);
    hide NamesNoted, UidsDiffer, SomeMetadata, OneMetadata, RoleGiven, GivenOnce, OpenAfter;
  }

  // ---------------------------------------------------------------- the run

  lemma StartIsNoted(front: seq<Event>, s: State, tag: Tag, options: HeaderOptions)
    requires Noted(front, s.stack.elements, s.draft) && StartTaken(s, tag, options).Some?
    requires |s.stack.elements| == s.depth
    ensures var t := StartTaken(s, tag, options).value;
            Noted(front + [Start(tag)], t.stack.elements, t.draft) && |t.stack.elements| == t.depth
  {
    hide KindStarted, RangesOf, BadAttachment;
    var outer, t := s.stack.elements, StartTaken(s, tag, options).value;
    assert (front + [Start(tag)])[..|front|] == front && OpenAfter(front + [Start(tag)]) == outer + [tag.name];
    assert t.stack.elements == outer + [tag.name] && t.depth == s.depth + 1;
    if s.depth == 0 {
      assert t.draft == s.draft && Quiet(Start(tag));
      hide StartTaken, Noted, OpenAfter;
      NotedQuiet(front, outer, Start(tag), s.draft, s.draft);
    } else {
      var registered := UidRegistered(tag, s.draft).value;
      assert KindStarted(outer, tag, registered, options) == Some(t.draft);
      hide StartTaken, UidRegistered, Noted, OpenAfter, NotesGrow;
      KindNotes(outer, tag, registered, options);
      NotedStart(front, outer, tag, s.draft, registered, t.draft);
    }
  }

  /** Every run that is not stopped has noted what its events say. */
  lemma {:induction false} RunIsNoted(events: seq<Event>, options: HeaderOptions)
    requires RunOf(events, options).Some?
    ensures var s := RunOf(events, options).value;
            Noted(events, s.stack.elements, s.draft) && |s.stack.elements| == s.depth
    decreases |events|
  {
    hide Noted, StartTaken, EndTaken, TextTaken;
    if events == [] {
      NothingIsNoted();
    } else {
      var front, last := events[..|events| - 1], events[|events| - 1];
      assert events == front + [last];
      RunIsNoted(front, options);
      var s := RunOf(front, options).value;
      match last
      case Start(tag) => StartIsNoted(front, s, tag, options);
      case End(_) => EndIsNoted(front, s, last, options);
      case Text(text, blank) => TextIsNoted(front, s, last, options);
    }
  }

  lemma NothingIsNoted()
    ensures Noted([], [], EmptyDraft())
  {
  }

  lemma EndIsNoted(front: seq<Event>, s: State, last: Event, options: HeaderOptions)
    requires Noted(front, s.stack.elements, s.draft) && last.End? && |s.stack.elements| == s.depth && EndTaken(s, options).Some?
    ensures var t := EndTaken(s, options).value;
            Noted(front + [last], t.stack.elements, t.draft) && |t.stack.elements| == t.depth
  {
    var open := s.stack.elements;
    assert (front + [last])[..|front|] == front && open == OpenAfter(front);
    assert OpenAfter(front + [last]) == open[..|open| - 1];
    hide ElementEnded, Noted, OpenAfter;
    EndNotes(Top(open), s.draft, options);
    NotedQuiet(front, open, last, s.draft, EndTaken(s, options).value.draft);
  }

  lemma TextIsNoted(front: seq<Event>, s: State, last: Event, options: HeaderOptions)
    requires Noted(front, s.stack.elements, s.draft) && last.Text? && |s.stack.elements| == s.depth
    requires StepTaken(s, last, options).Some?
    ensures var t := StepTaken(s, last, options).value;
            Noted(front + [last], t.stack.elements, t.draft) && |t.stack.elements| == t.depth
  {
    hide TextTaken;
    var t := StepTaken(s, last, options).value;
    assert (front + [last])[..|front|] == front && OpenAfter(front + [last]) == s.stack.elements;
    if s.stack.elements != [] {
      TextNotes(s, last.text, last.blank, options);
    }
    assert t.stack == s.stack && SameNotes(s.draft, t.draft) && t.depth == s.depth;
    hide StepTaken, Noted, OpenAfter, SameNotes;
    NotedQuiet(front, s.stack.elements, last, s.draft, t.draft);
  }

  /** What acceptance asks of the notes. */
  predicate NotesFinish(d: Draft) {
    && (forall k | 0 <= k < |d.references| :: d.references[k] in d.coreUids)
    && (forall k | 0 <= k < |d.thumbnailReferences| :: d.thumbnailReferences[k] !in d.thumbnails.uids)
    && d.metadata.elements == 1 && d.metadata.creationTime && d.metadata.creatorApplication
  }

  /**
   In a run that is not stopped no two core elements share a uid, and no more than one Metadata element
   and one of each mandatory value are there; the checks behind the last event succeed if and only if
   these are there, every Reference names a core element, and none inside a thumbnail names a thumbnail.
   */
  lemma ReferencesAreExact(events: seq<Event>, options: HeaderOptions)
    requires RunOf(events, options).Some?
    ensures UidsDiffer(events) && OneMetadata(events) && GivenOnce(events, CreationTime) && GivenOnce(events, CreatorApplication)
    ensures NotesFinish(RunOf(events, options).value.draft)
       <==> && ReferencesName(events) && SomeMetadata(events)
            && RoleGiven(events, CreationTime) && RoleGiven(events, CreatorApplication)
  {
    RunIsNoted(events, options);
    var d := RunOf(events, options).value.draft;
    hide RunOf, Declared, ThumbnailDeclared, Around, UidsDiffer, OneMetadata, GivenOnce, SomeMetadata, RoleGiven;
    if ReferencesName(events) {
      forall k | 0 <= k < |d.references|
        ensures d.references[k] in d.coreUids
      {
        assert Referred(events, d.references[k]);
      }
      forall k | 0 <= k < |d.thumbnailReferences|
        ensures d.thumbnailReferences[k] !in d.thumbnails.uids
      {
        assert ThumbnailReferred(events, d.thumbnailReferences[k]);
      }
    }
    if NotesFinish(d) {
      forall p: nat | p < |events| && Refers(events[p])
        ensures Declared(events, events[p].tag.id)
        ensures Around(events[..p]) == Some(Thumbnail) ==> !ThumbnailDeclared(events, events[p].tag.id)
      {
        assert Referred(events, events[p].tag.id) && events[p].tag.id in d.references;
        if Around(events[..p]) == Some(Thumbnail) {
          assert ThumbnailReferred(events, events[p].tag.id) && events[p].tag.id in d.thumbnailReferences;
        }
      }
    }
  }

  /** In an accepted header all of this holds. */
  lemma AcceptedIsResolved(events: seq<Event>, options: HeaderOptions, rules: ValueRules, headerEnd: int, fileSize: int)
    requires Accepts(events, options, rules, headerEnd, fileSize)
    ensures UidsDiffer(events) && ReferencesName(events)
    ensures SomeMetadata(events) && OneMetadata(events)
    ensures RoleGiven(events, CreationTime) && GivenOnce(events, CreationTime)
    ensures RoleGiven(events, CreatorApplication) && GivenOnce(events, CreatorApplication)
  {
    hide StepTaken, Composes, TableComplete, Acceptable, OneStructureEach;
    ReferencesAreExact(events, options);
  }

  // ---------------------------------------------------------------- names

  /** Two bindings of metadata to one image, or to the unit. */
  predicate SameOwner(b: MetadataBinding, c: MetadataBinding) {
    if b.scope == UnitScope then c.scope == UnitScope else c.scope != UnitScope && c.image == b.image
  }

  /** What is bound to one owner has different names: the Properties, the tables, and the ones from the others. */
  predicate NamesApart(metadata: seq<MetadataBinding>, x: Entries, tables: seq<Binding>, y: Tables)
    requires IndexesEntries(metadata, x) && IndexesTables(tables, y)
  {
    && PropertiesApart(metadata, x)
    && (forall k, l | 0 <= k < l < |tables| && tables[k].image == tables[l].image ::
          y.items[tables[k].item].id != y.items[tables[l].item].id)
    && forall k, l | 0 <= k < |metadata| && 0 <= l < |tables| && x.items[metadata[k].index].isProperty ::
         metadata[k].scope != UnitScope && metadata[k].image == Some(tables[l].image) ==>
           x.items[metadata[k].index].name != y.items[tables[l].item].id
  }

  predicate PropertiesApart(metadata: seq<MetadataBinding>, x: Entries)
    requires IndexesEntries(metadata, x)
  {
    forall k, l | 0 <= k < l < |metadata| && SameOwner(metadata[k], metadata[l]) ::
      x.items[metadata[k].index].isProperty && x.items[metadata[l].index].isProperty ==>
        x.items[metadata[k].index].name != x.items[metadata[l].index].name
  }

  /** An image is named wherever the unit is not. */
  predicate Owned(metadata: seq<MetadataBinding>) {
    forall k | 0 <= k < |metadata| :: metadata[k].scope != UnitScope ==> metadata[k].image.Some?
  }

  predicate Is(b: MetadataBinding, x: Entries, n: Named)
    requires b.index < |x.items|
  {
    x.items[b.index].isProperty && x.items[b.index].name == n.name && n.image == if b.scope == UnitScope then None else b.image
  }

  lemma {:induction false} InPropertyNames(metadata: seq<MetadataBinding>, x: Entries, n: Named)
    requires IndexesEntries(metadata, x)
    ensures n in PropertyNames(metadata, x) <==> exists k :: 0 <= k < |metadata| && Is(metadata[k], x, n)
  {
    if metadata != [] {
      var front, last := metadata[..|metadata| - 1], |metadata| - 1;
      InPropertyNames(front, x, n);
      assert forall k | 0 <= k < last :: metadata[k] == front[k];
    }
  }

  lemma {:induction false} PropertyNamesApart(metadata: seq<MetadataBinding>, x: Entries)
    requires IndexesEntries(metadata, x) && Owned(metadata)
    ensures NoDuplicates(PropertyNames(metadata, x)) <==> PropertiesApart(metadata, x)
  {
    if metadata != [] {
      var front, last := metadata[..|metadata| - 1], metadata[|metadata| - 1];
      PropertyNamesApart(front, x);
      var n := Named(if last.scope == UnitScope then None else last.image, x.items[last.index].name);
      InPropertyNames(front, x, n);
      var names := PropertyNames(front, x);
      NoDuplicatesStep(names, n);
      assert names + [] == names;
      assert forall k | 0 <= k < |front| :: metadata[k] == front[k];
      hide PropertyNames, NoDuplicates;
    }
  }

  lemma NoDuplicatesStep(names: seq<Named>, n: Named)
    ensures NoDuplicates(names + [n]) <==> NoDuplicates(names) && n !in names
  {
    var all := names + [n];
    assert forall k | 0 <= k < |names| :: all[k] == names[k];
    assert all[|names|] == n;
    if n in names {
      var k :| 0 <= k < |names| && names[k] == n;
      assert all[k] == all[|names|];
    }
  }

  lemma NoDuplicatesOfBoth(a: seq<Named>, b: seq<Named>)
    ensures NoDuplicates(a + b) <==> NoDuplicates(a) && NoDuplicates(b) && forall j | 0 <= j < |b| :: b[j] !in a
  {
    var all := a + b;
    assert forall i | 0 <= i < |a| :: all[i] == a[i];
    assert forall j | 0 <= j < |b| :: all[|a| + j] == b[j];
    if NoDuplicates(a) && NoDuplicates(b) && forall j | 0 <= j < |b| :: b[j] !in a {
      forall i, j | 0 <= i < j < |all|
        ensures all[i] != all[j]
      {
        if j >= |a| {
          assert all[j] == b[j - |a|];
          assert i >= |a| ==> all[i] == b[i - |a|];
        }
      }
    }
    if NoDuplicates(a + b) {
      forall i, j | 0 <= i < j < |b|
        ensures b[i] != b[j]
      {
        assert all[|a| + i] != all[|a| + j];
      }
    }
  }

  lemma TableNamesApart(tables: seq<Binding>, y: Tables)
    requires IndexesTables(tables, y)
    ensures NoDuplicates(TableNames(tables, y))
       <==> forall k, l | 0 <= k < l < |tables| && tables[k].image == tables[l].image ::
              y.items[tables[k].item].id != y.items[tables[l].item].id
  {
    var names := TableNames(tables, y);
    assert forall k | 0 <= k < |tables| :: names[k] == Named(Some(tables[k].image), y.items[tables[k].item].id);
    if NoDuplicates(names) {
      forall k, l | 0 <= k < l < |tables| && tables[k].image == tables[l].image
        ensures y.items[tables[k].item].id != y.items[tables[l].item].id
      {
        assert names[k] != names[l];
      }
    }
  }

  /** The sets of the reader find a duplicate identifier exactly where two names of one owner are equal. */
  lemma NamesAreExact(metadata: seq<MetadataBinding>, x: Entries, tables: seq<Binding>, y: Tables)
    requires IndexesEntries(metadata, x) && IndexesTables(tables, y) && Owned(metadata)
    ensures NoDuplicates(PropertyNames(metadata, x) + TableNames(tables, y)) <==> NamesApart(metadata, x, tables, y)
  {
    var a, b := PropertyNames(metadata, x), TableNames(tables, y);
    NoDuplicatesOfBoth(a, b);
    PropertyNamesApart(metadata, x);
    TableNamesApart(tables, y);
    forall l | 0 <= l < |tables|
      ensures b[l] in a <==> exists k :: 0 <= k < |metadata| && Is(metadata[k], x, b[l])
    {
      InPropertyNames(metadata, x, b[l]);
    }
    hide PropertyNames, NoDuplicates, PropertiesApart;
    assert forall k, l | 0 <= k < |metadata| && 0 <= l < |tables| ::
        Is(metadata[k], x, b[l]) <==>
          && x.items[metadata[k].index].isProperty && metadata[k].scope != UnitScope && metadata[k].image == Some(tables[l].image)
          && x.items[metadata[k].index].name == y.items[tables[l].item].id;
  }

  lemma DocumentNamesDiffer(doc: Document, rules: ValueRules)
    requires DocumentOk(doc, rules)
    ensures IndexesEntries(doc.metadata, doc.draft.metadata) && IndexesTables(doc.tables, doc.draft.tables)
    ensures NamesApart(doc.metadata, doc.draft.metadata, doc.tables, doc.draft.tables)
  {
    hide TableComplete, ReferencesOk, NoDuplicates, PropertyNames, TableNames, NamesApart;
    NamesAreExact(doc.metadata, doc.draft.metadata, doc.tables, doc.draft.tables);
  }

  // ---------------------------------------------------------------- places

  predicate BelowRoot(open: seq<Name>) {
    |open| == 1
  }

  predicate BelowRootOrImage(open: seq<Name>) {
    |open| == 1 || (|open| == 2 && Top(open) == Image)
  }

  /** Where an element with this name may start, by what is open around it. */
  predicate MayStand(open: seq<Name>, n: Name) {
    if open == [] then n == Xisf
    else
      && Top(open) != Cell && Top(open) != Field && (Top(open) == Row ==> n == Cell)
      && match n
         case Image => BelowRoot(open)
         case Metadata => BelowRoot(open)
         case Table => BelowRootOrImage(open)
         case Thumbnail => BelowRootOrImage(open)
         case Ancillary => BelowRootOrImage(open)
         case IccProfile => BelowRootOrImage(open)
         case Structure => BelowRoot(open) || Top(open) == Table
         case Field => Top(open) == Structure
         case Row => Top(open) == Table
         case Cell => Top(open) == Row
         case Data => (|open| == 2 && Top(open) == Image) || Top(open) == Thumbnail
         case Property => Top(open) == Xisf || Top(open) == Image || Top(open) == Metadata
         case FitsKeyword => Top(open) == Xisf || Top(open) == Image
         case Foreign(_) => BelowRoot(open)
         case _ => true
  }

  lemma StartStands(s: State, tag: Tag, options: HeaderOptions)
    requires |s.stack.elements| == s.depth && StartTaken(s, tag, options).Some?
    ensures MayStand(s.stack.elements, tag.name)
  {
    hide RangesOf, BadAttachment, TableAdded, StructureAdded, FieldAdded, RowAdded, CellAdded, ProfileAdded, AncillaryAdded;
    hide ThumbnailAdded, ImageAdded, EntryAdded, ImageDataAdded, ThumbnailDataAdded, ReferenceStarted, UidRegistered, InlineProperty;
  }

  /** In every run that is not stopped each element stands where it may. */
  lemma {:induction false} ElementsStand(events: seq<Event>, options: HeaderOptions, p: nat)
    requires RunOf(events, options).Some? && p < |events| && events[p].Start?
    ensures MayStand(OpenAfter(events[..p]), events[p].tag.name)
    decreases |events|
  {
    hide StepTaken, MayStand, OpenAfter;
    var n := |events| - 1;
    var front := events[..n];
    if p < n {
      ElementsStand(front, options, p);
      assert front[..p] == events[..p];
    } else {
      LastStands(events, options);
    }
  }

  lemma LastStands(events: seq<Event>, options: HeaderOptions)
    requires events != [] && RunOf(events, options).Some? && events[|events| - 1].Start?
    ensures MayStand(OpenAfter(events[..|events| - 1]), events[|events| - 1].tag.name)
  {
    var front, last := events[..|events| - 1], events[|events| - 1];
    RunIsNoted(front, options);
    var s := RunOf(front, options).value;
    assert StartTaken(s, last.tag, options).Some?;
    hide RunOf, StepTaken, StartTaken, MayStand, OpenAfter, UidsDiffer, NamesNoted, MetadataNoted;
    StartStands(s, last.tag, options);
  }
}
