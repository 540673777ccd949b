/**
 What an accepted header binds to what: every object to the image in which it is declared, and to each
 image or unit that refers to it by the unique identifier of its start tag.
 */
module HeaderBindings {
  import opened Base
  import opened HeaderStack
  import opened Locations
  import opened HeaderLists
  import opened HeaderDraft
  import opened HeaderDocument
  import opened HeaderEvents
  import opened HeaderValues
  import opened HeaderRecords
  import E = EncodedText

  // ---------------------------------------------------------------- what the events call for

  /** What can be referred to. `AStandalone` is a structure outside every table. */
  datatype Object = AnEntry | AProfile | AnAncillary | AThumbnail | ATable | AStructure | AStandalone

  predicate IsObject(o: Object, n: Name) {
    match o
    case AnEntry => n == Property || n == FitsKeyword
    case AProfile => n == IccProfile
    case AnAncillary => n == Ancillary
    case AThumbnail => n == Thumbnail
    case ATable => n == Table
    case _ => n == Structure
  }

  /** The objects that are bound to the image in which they stand. */
  predicate Binding(o: Object) {
    o == AProfile || o == AnAncillary || o == AThumbnail || o == ATable
  }

  /** Where the objects of a kind started; the n-th of them is the n-th of its list. */
  function Declared(o: Object, events: seq<Event>): (starts: seq<nat>)
    ensures forall m | 0 <= m < |starts| :: starts[m] < |events| && events[starts[m]].Start? && IsObject(o, events[starts[m]].tag.name)
  {
    if events == [] then []
    else
      var before, e := Declared(o, events[..|events| - 1]), events[|events| - 1];
      if e.Start? && IsObject(o, e.tag.name) then before + [|events| - 1] else before
  }

  /** A start tag by whose identifier the object can be found. */
  predicate Eligible(o: Object, events: seq<Event>, p: nat)
    requires p <= |events|
  {
    o == AStandalone ==> ParentAt(events, p) != Some(Table)
  }

  /** These identifiers, and no others, name the first object that has them. */
  predicate UidsName(o: Object, uids: map<string, nat>, events: seq<Event>, n: nat)
    requires n <= |events|
  {
    ListNames(o, uids, events, Declared(o, events[..n]))
  }

  predicate ListNames(o: Object, uids: map<string, nat>, events: seq<Event>, starts: seq<nat>) {
    && (forall i | 0 <= i < |starts| :: NamesAll(o, uids, events, starts[i], i))
    && forall uid | uid in uids :: uids[uid] < |starts| && NamedBy(o, events, starts[uids[uid]], uid)
  }

  predicate NamedBy(o: Object, events: seq<Event>, p: nat, uid: string) {
    p < |events| && events[p].Start? && events[p].tag.uid == uid && uid != "" && Eligible(o, events, p)
  }

  predicate NamesAll(o: Object, uids: map<string, nat>, events: seq<Event>, p: nat, i: nat) {
    p < |events| && events[p].Start? && NamedBy(o, events, p, events[p].tag.uid) ==>
      events[p].tag.uid in uids && uids[events[p].tag.uid] <= i
  }

  /** The objects that stand inside an image, in order. */
  function Inside(o: Object, events: seq<Event>): seq<BindingEvent> {
    if events == [] then []
    else
      var n := |events| - 1;
      var before, image := Inside(o, events[..n]), ImageAt(events, n);
      if events[n].Start? && IsObject(o, events[n].tag.name) && image.Some? then
        before + [BindingEvent(|Declared(o, events[..n])|, image.value)]
      else before
  }

  /** What a start tag asks to be bound to an image or to the unit: an entry where it stands, or what a Reference names. */
  function Asks(tag: Tag, image: Option<nat>, parent: Option<Name>, entries: nat): seq<MetadataEvent> {
    if IsEntry(tag) then
      if image.Some? then [Direct(entries, ImageScope, image)]
      else if parent == Some(Metadata) then [Direct(entries, UnitScope, None)]
      else []
    else if tag.name == Reference then
      if parent == Some(Image) && image.Some? then [ByReference(tag.id, ImageScope, image)]
      else if parent == Some(Metadata) then [ByReference(tag.id, UnitScope, image)]
      else []
    else []
  }

  function Asked(events: seq<Event>): seq<MetadataEvent> {
    if events == [] then []
    else
      var n := |events| - 1;
      Asked(events[..n])
      + if events[n].Start? then Asks(events[n].tag, ImageAt(events, n), ParentAt(events, n), |Declared(AnEntry, events[..n])|) else []
  }

  /** A Reference inside a table names its structure. */
  function AsksTable(tag: Tag, parent: Option<Name>, tables: nat): seq<TableReference> {
    if tag.name == Reference && parent == Some(Table) && tables > 0 then [TableReference(tables - 1, tag.id)] else []
  }

  /** The References inside tables: which table names which structure. */
  function TableAsked(events: seq<Event>): seq<TableReference> {
    if events == [] then []
    else
      var n := |events| - 1;
      TableAsked(events[..n])
      + if events[n].Start? then AsksTable(events[n].tag, ParentAt(events, n), |Declared(ATable, events[..n])|) else []
  }

  // ---------------------------------------------------------------- the lists of the handlers

  function Uids(o: Object, d: Draft): map<string, nat> {
    match o
    case AnEntry => d.metadata.uids
    case AProfile => d.profiles.uids
    case AnAncillary => d.ancillaries.uids
    case AThumbnail => d.thumbnails.uids
    case ATable => d.tables.uids
    case AStructure => d.tables.structureUids
    case AStandalone => d.tables.standaloneUids
  }

  function Binds(o: Object, d: Draft): seq<BindingEvent> {
    match o
    case AProfile => d.profiles.events
    case AnAncillary => d.ancillaries.events
    case AThumbnail => d.thumbnails.events
    case ATable => d.tables.events
    case _ => []
  }

  function Count(o: Object, d: Draft): nat {
    match o
    case AnEntry => |d.metadata.items|
    case AProfile => |d.profiles.items|
    case AnAncillary => d.ancillaries.count
    case AThumbnail => |d.thumbnails.items|
    case ATable => |d.tables.items|
    case _ => |d.tables.structures|
  }

  /** What one start tag does to them. */
  predicate TiesGrow(tag: Tag, d: Draft, e: Draft, image: Option<nat>, parent: Option<Name>) {
    && (forall o ::
          && Count(o, e) == Count(o, d) + (if IsObject(o, tag.name) then 1 else 0)
          && Uids(o, e) == (if IsObject(o, tag.name) && (o == AStandalone ==> parent != Some(Table))
                            then Emplace(Uids(o, d), tag.uid, Count(o, d)) else Uids(o, d))
          && Binds(o, e) == if IsObject(o, tag.name) && Binding(o) then Bind(Binds(o, d), Count(o, d), image) else Binds(o, d))
    && e.metadata.events == d.metadata.events + Asks(tag, image, parent, |d.metadata.items|)
    && e.tables.references == d.tables.references + AsksTable(tag, parent, |d.tables.items|)
  }

  lemma EntryFacts(outer: seq<Name>, tag: Tag, d: Draft, options: HeaderOptions)
    requires outer != [] && IsEntry(tag) && EntryStarted(outer, tag, tag.name == Property, d, options).Some?
    ensures var e, n := EntryStarted(outer, tag, tag.name == Property, d, options).value, |d.metadata.items|;
            && e == d.(metadata := e.metadata, encoded := e.encoded) && |e.metadata.items| == n + 1
            && e.metadata.uids == Emplace(d.metadata.uids, tag.uid, n)
            && e.metadata.events == d.metadata.events + Asks(tag, CurrentImage(d), Some(Top(outer)), n)
  {
    hide ParseLocation, Emplace, CurrentImage;
  }

  lemma EntriesTie(outer: seq<Name>, tag: Tag, d: Draft, options: HeaderOptions)
    requires outer != [] && IsEntry(tag) && KindStarted(outer, tag, d, options).Some?
    ensures TiesGrow(tag, d, KindStarted(outer, tag, d, options).value, CurrentImage(d), Some(Top(outer)))
  {
    EntryIsStarted(outer, tag, d, options);
    EntryFacts(outer, tag, d, options);
    hide KindStarted, EntryStarted, Emplace, Bind, Asks, CurrentImage;
  }

  lemma EntryIsStarted(outer: seq<Name>, tag: Tag, d: Draft, options: HeaderOptions)
    requires IsEntry(tag)
    ensures KindStarted(outer, tag, d, options) == EntryStarted(outer, tag, tag.name == Property, d, options)
  {
  }

  /** Of the other objects, only their own list changes. */
  predicate OnlyItsList(tag: Tag, d: Draft, e: Draft) {
    match tag.name
    case IccProfile => e == d.(profiles := e.profiles, encoded := e.encoded)
    case Ancillary => e == d.(ancillaries := e.ancillaries)
    case Thumbnail => e == d.(thumbnails := e.thumbnails)
    case Table => e == d.(tables := e.tables) && e.tables.references == d.tables.references
                  && e.tables.structures == d.tables.structures && e.tables.structureUids == d.tables.structureUids
                  && e.tables.standaloneUids == d.tables.standaloneUids
    case _ => true
  }

  function ObjectOf(n: Name): Object {
    match n
    case IccProfile => AProfile
    case Ancillary => AnAncillary
    case Thumbnail => AThumbnail
    case _ => ATable
  }

  lemma ObjectFacts(outer: seq<Name>, tag: Tag, d: Draft, options: HeaderOptions)
    requires tag.name == IccProfile || tag.name == Ancillary || tag.name == Thumbnail || tag.name == Table
    requires KindStarted(outer, tag, d, options).Some?
    ensures var e, o := KindStarted(outer, tag, d, options).value, ObjectOf(tag.name);
            && OnlyItsList(tag, d, e) && Count(o, e) == Count(o, d) + 1 && Uids(o, e) == Emplace(Uids(o, d), tag.uid, Count(o, d))
            && Binds(o, e) == Bind(Binds(o, d), Count(o, d), CurrentImage(d))
  {
    hide ParseLocation, Emplace, Bind, CurrentImage, StructureStarted, EntryStarted, DataStarted, ImageStarted, ReferenceStarted;
  }

  lemma ObjectsTie(outer: seq<Name>, tag: Tag, d: Draft, options: HeaderOptions)
    requires outer != [] && (tag.name == IccProfile || tag.name == Ancillary || tag.name == Thumbnail || tag.name == Table)
    requires KindStarted(outer, tag, d, options).Some?
    ensures TiesGrow(tag, d, KindStarted(outer, tag, d, options).value, CurrentImage(d), Some(Top(outer)))
  {
    var e := KindStarted(outer, tag, d, options).value;
    ObjectFacts(outer, tag, d, options);
    hide KindStarted, Emplace, Bind, CurrentImage;
    var mine := ObjectOf(tag.name);
    assert forall o :: IsObject(o, tag.name) <==> o == mine;
    OthersUntouched(tag, d, e);
    hide Count, Uids, Binds, OnlyItsList;
    assert Asks(tag, CurrentImage(d), Some(Top(outer)), |d.metadata.items|) == [];
  }

  lemma OthersUntouched(tag: Tag, d: Draft, e: Draft)
    requires tag.name == IccProfile || tag.name == Ancillary || tag.name == Thumbnail || tag.name == Table
    requires OnlyItsList(tag, d, e)
    ensures forall o | o != ObjectOf(tag.name) :: Count(o, e) == Count(o, d) && Uids(o, e) == Uids(o, d) && Binds(o, e) == Binds(o, d)
    ensures e.metadata == d.metadata && e.tables.references == d.tables.references
  {
  }

  lemma StructuresTie(outer: seq<Name>, tag: Tag, d: Draft, options: HeaderOptions)
    requires outer != [] && tag.name == Structure && KindStarted(outer, tag, d, options).Some?
    ensures TiesGrow(tag, d, KindStarted(outer, tag, d, options).value, CurrentImage(d), Some(Top(outer)))
  {
    hide TableStarted, FieldStarted, RowStarted, CellStarted, ProfileStarted, AncillaryStarted, ThumbnailStarted, DataStarted, ImageStarted;
    hide ReferenceStarted, EntryStarted, ParseLocation, Emplace, Bind;
  }

  /** A Reference changes the lists of references only. */
  lemma ReferenceFacts(outer: seq<Name>, tag: Tag, d: Draft, options: HeaderOptions)
    requires outer != [] && tag.name == Reference && KindStarted(outer, tag, d, options).Some? && LastOpen(d.tables)
    ensures var e := KindStarted(outer, tag, d, options).value;
            && e.metadata == d.metadata.(events := e.metadata.events) && e.tables == d.tables.(references := e.tables.references)
            && e.profiles == d.profiles && e.ancillaries == d.ancillaries && e.thumbnails == d.thumbnails
            && e.metadata.events == d.metadata.events + Asks(tag, CurrentImage(d), Some(Top(outer)), |d.metadata.items|)
            && e.tables.references == d.tables.references + AsksTable(tag, Some(Top(outer)), |d.tables.items|)
  {
    var e := ReferencedDraft(outer, tag, d, options);
    var noted := d.(references := d.references + [tag.id],
                    thumbnailReferences := d.thumbnailReferences + if Parent(outer) == Thumbnail then [tag.id] else []);
    var tabled := TableReferenced(outer, tag, noted, options).value;
    TableNoted(outer, tag, noted, options);
    EntryNoted(outer, tag, tabled, options);
    hide TableReferenced, MetadataReferenced, Asks, AsksTable, LastOpen;
  }

  lemma TableNoted(outer: seq<Name>, tag: Tag, d: Draft, options: HeaderOptions)
    requires outer != [] && tag.name == Reference && TableReferenced(outer, tag, d, options).Some? && LastOpen(d.tables)
    ensures var e := TableReferenced(outer, tag, d, options).value;
            && e == d.(tables := d.tables.(references := e.tables.references))
            && e.tables.references == d.tables.references + AsksTable(tag, Some(Top(outer)), |d.tables.items|)
  {
    assert d.tables.references + [] == d.tables.references;
  }

  lemma EntryNoted(outer: seq<Name>, tag: Tag, d: Draft, options: HeaderOptions)
    requires outer != [] && tag.name == Reference && MetadataReferenced(outer, tag, d, options).Some?
    ensures var e := MetadataReferenced(outer, tag, d, options).value;
            && e == d.(metadata := d.metadata.(events := e.metadata.events))
            && e.metadata.events == d.metadata.events + Asks(tag, CurrentImage(d), Some(Top(outer)), |d.metadata.items|)
  {
    assert d.metadata.events + [] == d.metadata.events;
  }

  lemma ReferencedDraft(outer: seq<Name>, tag: Tag, d: Draft, options: HeaderOptions) returns (e: Draft)
    requires tag.name == Reference && KindStarted(outer, tag, d, options).Some?
    ensures e == KindStarted(outer, tag, d, options).value && ReferenceStarted(outer, tag, d, options) == Some(e)
  {
    hide ReferenceStarted;
    e := KindStarted(outer, tag, d, options).value;
  }

  lemma ReferencesTie(outer: seq<Name>, tag: Tag, d: Draft, options: HeaderOptions)
    requires outer != [] && tag.name == Reference && KindStarted(outer, tag, d, options).Some? && LastOpen(d.tables)
    ensures TiesGrow(tag, d, KindStarted(outer, tag, d, options).value, CurrentImage(d), Some(Top(outer)))
  {
    ReferenceFacts(outer, tag, d, options);
    hide KindStarted, CurrentImage, Asks, LastOpen;
  }

  /** Everything else leaves the lists of objects and references as they are. */
  lemma OtherFacts(outer: seq<Name>, tag: Tag, d: Draft, options: HeaderOptions)
    requires !IsEntry(tag) && tag.name != IccProfile && tag.name != Ancillary && tag.name != Thumbnail
    requires tag.name != Table && tag.name != Structure && tag.name != Reference && KindStarted(outer, tag, d, options).Some?
    ensures var e := KindStarted(outer, tag, d, options).value;
            && e.metadata == d.metadata.(elements := e.metadata.elements) && e.profiles == d.profiles && e.ancillaries == d.ancillaries
            && |e.thumbnails.items| == |d.thumbnails.items| && e.thumbnails.uids == d.thumbnails.uids && e.thumbnails.events == d.thumbnails.events
            && |e.tables.items| == |d.tables.items| && |e.tables.structures| == |d.tables.structures| && e.tables.uids == d.tables.uids
            && e.tables.events == d.tables.events && e.tables.structureUids == d.tables.structureUids
            && e.tables.standaloneUids == d.tables.standaloneUids && e.tables.references == d.tables.references
  {
    hide TableStarted, StructureStarted, ProfileStarted, AncillaryStarted, ThumbnailStarted, ReferenceStarted, EntryStarted, ParseLocation;
  }

  lemma OthersTie(outer: seq<Name>, tag: Tag, d: Draft, options: HeaderOptions)
    requires outer != [] && !IsEntry(tag) && tag.name != IccProfile && tag.name != Ancillary && tag.name != Thumbnail
    requires tag.name != Table && tag.name != Structure && tag.name != Reference && KindStarted(outer, tag, d, options).Some?
    ensures TiesGrow(tag, d, KindStarted(outer, tag, d, options).value, CurrentImage(d), Some(Top(outer)))
  {
    OtherFacts(outer, tag, d, options);
    hide KindStarted, CurrentImage, Emplace, Bind;
  }

  lemma StartTies(outer: seq<Name>, tag: Tag, d: Draft, options: HeaderOptions)
    requires outer != [] && KindStarted(outer, tag, d, options).Some? && LastOpen(d.tables)
    ensures TiesGrow(tag, d, KindStarted(outer, tag, d, options).value, CurrentImage(d), Some(Top(outer)))
  {
    hide KindStarted, TiesGrow, LastOpen;
    if IsEntry(tag) {
      EntriesTie(outer, tag, d, options);
    } else if tag.name == IccProfile || tag.name == Ancillary || tag.name == Thumbnail || tag.name == Table {
      ObjectsTie(outer, tag, d, options);
    } else if tag.name == Structure {
      StructuresTie(outer, tag, d, options);
    } else if tag.name == Reference {
      ReferencesTie(outer, tag, d, options);
    } else {
      OthersTie(outer, tag, d, options);
    }
  }

  // ---------------------------------------------------------------- the invariant of a run

  predicate TiedAt(o: Object, events: seq<Event>, n: nat, d: Draft)
    requires n <= |events|
  {
    && Count(o, d) == |Declared(o, events[..n])| && UidsName(o, Uids(o, d), events, n)
    && (Binding(o) ==> Binds(o, d) == Inside(o, events[..n]))
  }

  predicate Tied(events: seq<Event>, n: nat, d: Draft)
    requires n <= |events|
  {
    && (forall o :: TiedAt(o, events, n, d))
    && d.metadata.events == Asked(events[..n]) && d.tables.references == TableAsked(events[..n])
  }

  lemma TiedNothing(events: seq<Event>)
    ensures Tied(events, 0, EmptyDraft())
  {
    assert events[..0] == [];
    forall o
      ensures TiedAt(o, events, 0, EmptyDraft())
    {
    }
  }

  lemma DeclaredStep(o: Object, events: seq<Event>, n: nat)
    requires n < |events|
    ensures Declared(o, events[..n + 1])
         == Declared(o, events[..n]) + if events[n].Start? && IsObject(o, events[n].tag.name) then [n] else []
  {
    assert events[..n + 1][..n] == events[..n];
  }

  lemma SamePlace(events: seq<Event>, n: nat)
    requires n < |events|
    ensures ImageAt(events[..n + 1], n) == ImageAt(events, n) && ParentAt(events[..n + 1], n) == ParentAt(events, n)
  {
    var front := events[..n + 1];
    assert front[..n] == events[..n];
    var open := OpenStarts(events[..n]);
    assert forall m | 0 <= m < |open| :: open[m] < n && front[open[m]] == events[open[m]];
    hide OpenStarts, Starts;
  }

  lemma InsideLast(o: Object, events: seq<Event>)
    requires events != []
    ensures var n := |events| - 1;
            Inside(o, events)
            == if events[n].Start? && IsObject(o, events[n].tag.name)
               then Bind(Inside(o, events[..n]), |Declared(o, events[..n])|, ImageAt(events, n)) else Inside(o, events[..n])
  {
    hide ImageAt, Declared, IsObject;
  }

  lemma InsideStep(o: Object, events: seq<Event>, n: nat)
    requires n < |events|
    ensures Inside(o, events[..n + 1])
         == if events[n].Start? && IsObject(o, events[n].tag.name)
            then Bind(Inside(o, events[..n]), |Declared(o, events[..n])|, ImageAt(events, n)) else Inside(o, events[..n])
  {
    InsideLast(o, events[..n + 1]);
    SamePlace(events, n);
    assert events[..n + 1][..n] == events[..n];
    hide ImageAt, ParentAt, Inside, Declared, IsObject, Bind;
  }

  lemma AskedLast(events: seq<Event>)
    requires events != []
    ensures var n := |events| - 1;
            && Asked(events)
               == Asked(events[..n])
                  + (if events[n].Start?
                     then Asks(events[n].tag, ImageAt(events, n), ParentAt(events, n), |Declared(AnEntry, events[..n])|) else [])
            && TableAsked(events)
               == TableAsked(events[..n])
                  + if events[n].Start? then AsksTable(events[n].tag, ParentAt(events, n), |Declared(ATable, events[..n])|) else []
  {
    hide ImageAt, ParentAt, Declared, Asks;
  }

  lemma AskedStep(events: seq<Event>, n: nat)
    requires n < |events|
    ensures Asked(events[..n + 1])
         == Asked(events[..n])
            + if events[n].Start?
              then Asks(events[n].tag, ImageAt(events, n), ParentAt(events, n), |Declared(AnEntry, events[..n])|) else []
    ensures TableAsked(events[..n + 1])
         == TableAsked(events[..n])
            + if events[n].Start? then AsksTable(events[n].tag, ParentAt(events, n), |Declared(ATable, events[..n])|) else []
  {
    AskedLast(events[..n + 1]);
    SamePlace(events, n);
    assert events[..n + 1][..n] == events[..n];
    hide ImageAt, ParentAt, Asks, Declared, Asked, TableAsked, AsksTable;
  }

  lemma NamesStart(o: Object, uids: map<string, nat>, events: seq<Event>, n: nat)
    requires n < |events| && events[n].Start? && UidsName(o, uids, events, n)
    ensures UidsName(o, if IsObject(o, events[n].tag.name) && Eligible(o, events, n)
                     then Emplace(uids, events[n].tag.uid, |Declared(o, events[..n])|) else uids, events, n + 1)
  {
    DeclaredStep(o, events, n);
    var starts := Declared(o, events[..n]);
    hide Declared, Eligible, IsObject, ListNames, Emplace;
    if IsObject(o, events[n].tag.name) {
      NamesMore(o, uids, events, starts, n);
    }
  }

  lemma NamesMore(o: Object, uids: map<string, nat>, events: seq<Event>, starts: seq<nat>, n: nat)
    requires n < |events| && events[n].Start? && ListNames(o, uids, events, starts)
    ensures ListNames(o, if Eligible(o, events, n) then Emplace(uids, events[n].tag.uid, |starts|) else uids, events, starts + [n])
  {
    var more, uid := starts + [n], events[n].tag.uid;
    var after := if Eligible(o, events, n) then Emplace(uids, uid, |starts|) else uids;
    hide Eligible;
    forall i | 0 <= i < |more|
      ensures NamesAll(o, after, events, more[i], i)
    {
      if i < |starts| {
        assert NamesAll(o, uids, events, starts[i], i);
      }
    }
    forall other | other in after
      ensures after[other] < |more| && NamedBy(o, events, more[after[other]], other)
    {
      if other in uids {
        assert NamedBy(o, events, starts[uids[other]], other);
      }
    }
  }

  lemma TiedAtStart(o: Object, events: seq<Event>, n: nat, d: Draft, e: Draft, image: Option<nat>, parent: Option<Name>)
    requires n < |events| && events[n].Start? && TiedAt(o, events, n, d) && TiesGrow(events[n].tag, d, e, image, parent)
    requires image == ImageAt(events, n) && parent == ParentAt(events, n)
    ensures TiedAt(o, events, n + 1, e)
  {
    DeclaredStep(o, events, n);
    InsideStep(o, events, n);
    NamesStart(o, Uids(o, d), events, n);
    hide Declared, Inside, UidsName, ImageAt, ParentAt, Emplace, Bind, Count, Uids, Binds, Asks;
  }

  lemma TiedStarts(events: seq<Event>, n: nat, d: Draft, e: Draft, image: Option<nat>, parent: Option<Name>)
    requires n < |events| && events[n].Start? && Tied(events, n, d) && TiesGrow(events[n].tag, d, e, image, parent)
    requires image == ImageAt(events, n) && parent == ParentAt(events, n)
    ensures Tied(events, n + 1, e)
  {
    AskedStep(events, n);
    assert TiedAt(AnEntry, events, n, d) && TiedAt(ATable, events, n, d);
    assert |d.metadata.items| == |Declared(AnEntry, events[..n])| && |d.tables.items| == |Declared(ATable, events[..n])|;
    hide TiesGrow, TiedAt, Asked, TableAsked, Asks, AsksTable, ImageAt, ParentAt, Declared, UidsName;
    GrowsAsked(events[n].tag, d, e, image, parent);
    var after := n + 1;
    forall o
      ensures TiedAt(o, events, after, e)
    {
      assert TiedAt(o, events, n, d);
      TiedAtStart(o, events, n, d, e, image, parent);
    }
  }

  lemma GrowsAsked(tag: Tag, d: Draft, e: Draft, image: Option<nat>, parent: Option<Name>)
    requires TiesGrow(tag, d, e, image, parent)
    ensures e.metadata.events == d.metadata.events + Asks(tag, image, parent, |d.metadata.items|)
    ensures e.tables.references == d.tables.references + AsksTable(tag, parent, |d.tables.items|)
  {
    hide Asks, AsksTable, Count, Uids, Binds;
  }

  lemma RootTies(tag: Tag, d: Draft, image: Option<nat>)
    requires tag.name == Xisf
    ensures TiesGrow(tag, d, d, image, None)
  {
  }

  /** A start tag that is let in. */
  lemma TiedStart(events: seq<Event>, n: nat, s: State, tag: Tag, options: HeaderOptions)
    requires n < |events| && Valued(events, n, s) && Listed(events, n, s) && Tied(events, n, s.draft)
    requires events[n] == Start(tag) && StartTaken(s, tag, options).Some? && Consistent(s.stack.elements, s.draft, options)
    requires Heights(s.stack, s.depth, |s.extensions.items|)
    ensures Tied(events, n + 1, StartTaken(s, tag, options).value.draft)
  {
    CurrentIs(events, n, s, options);
    if s.stack.elements == [] {
      NoParent(events, n, s);
    }
    hide Tied, Valued, Recorded, Consistent, ImageAt, ParentAt, ExtensionsLinked, CellIsLast, AllRecorded, LastOpen;
    StartTied(s, tag, options);
    hide StartTaken;
    TiedStarts(events, n, s.draft, StartTaken(s, tag, options).value.draft, CurrentImage(s.draft),
               if s.stack.elements == [] then None else Some(Top(s.stack.elements)));
  }

  lemma NoParent(events: seq<Event>, n: nat, s: State)
    requires Valued(events, n, s) && s.stack.elements == []
    ensures ParentAt(events, n) == None
  {
  }

  lemma StartTied(s: State, tag: Tag, options: HeaderOptions)
    requires StartTaken(s, tag, options).Some? && LastOpen(s.draft.tables) && Heights(s.stack, s.depth, |s.extensions.items|)
    ensures TiesGrow(tag, s.draft, StartTaken(s, tag, options).value.draft, CurrentImage(s.draft),
                     if s.stack.elements == [] then None else Some(Top(s.stack.elements)))
  {
    hide KindStarted, RangesOf, BadAttachment, LastOpen, TiesGrow;
    if Entered(s, tag, options).value.depth == 1 {
      RootTies(tag, s.draft, CurrentImage(s.draft));
    } else {
      var d := UidRegistered(tag, s.draft).value;
      StartTies(s.stack.elements, tag, d, options);
      SameTies(tag, s.draft, d, KindStarted(s.stack.elements, tag, d, options).value, CurrentImage(s.draft), Some(Top(s.stack.elements)));
    }
  }

  lemma SameTies(tag: Tag, d: Draft, d': Draft, e: Draft, image: Option<nat>, parent: Option<Name>)
    requires d' == d.(coreUids := d'.coreUids) && TiesGrow(tag, d', e, image, parent)
    ensures TiesGrow(tag, d, e, image, parent)
  {
    assert forall o :: Count(o, d') == Count(o, d) && Uids(o, d') == Uids(o, d) && Binds(o, d') == Binds(o, d);
    hide Count, Uids, Binds, Emplace, Bind, Asks;
  }

  /** The lists of objects and references are as they were. */
  predicate SameBonds(d: Draft, e: Draft) {
    && (forall o :: Count(o, e) == Count(o, d) && Uids(o, e) == Uids(o, d) && Binds(o, e) == Binds(o, d))
    && e.metadata.events == d.metadata.events && e.tables.references == d.tables.references
  }

  /** Each list of the draft has its length, its uids and its events. */
  predicate SameLists(d: Draft, e: Draft) {
    && |e.metadata.items| == |d.metadata.items| && e.metadata.uids == d.metadata.uids && e.metadata.events == d.metadata.events
    && |e.profiles.items| == |d.profiles.items| && e.profiles.uids == d.profiles.uids && e.profiles.events == d.profiles.events
    && |e.thumbnails.items| == |d.thumbnails.items| && e.thumbnails.uids == d.thumbnails.uids
    && e.thumbnails.events == d.thumbnails.events && e.ancillaries == d.ancillaries
    && |e.tables.items| == |d.tables.items| && |e.tables.structures| == |d.tables.structures| && e.tables.uids == d.tables.uids
    && e.tables.structureUids == d.tables.structureUids && e.tables.standaloneUids == d.tables.standaloneUids
    && e.tables.events == d.tables.events && e.tables.references == d.tables.references
  }

  lemma BondsOfLists(d: Draft, e: Draft)
    requires SameLists(d, e)
    ensures SameBonds(d, e)
  {
  }

  lemma TableEndKeepsLists(n: Name, d: Draft)
    requires WithTables(d, TablePartEnded(n, d.tables)).Some?
    ensures SameLists(d, WithTables(d, TablePartEnded(n, d.tables)).value)
  {
  }

  lemma EndKeepsBonds(n: Name, d: Draft, options: HeaderOptions)
    requires ElementEnded(n, d, options).Some?
    ensures SameBonds(d, ElementEnded(n, d, options).value)
  {
    if n == Cell || n == Row || n == Structure || n == Table {
      TableEndKeepsLists(n, d);
    } else {
      hide EndsBlock, TablePartEnded;
      assert SameLists(d, ElementEnded(n, d, options).value);
    }
    hide EndsBlock, TablePartEnded, SameBonds, SameLists;
    BondsOfLists(d, ElementEnded(n, d, options).value);
  }

  lemma CellTextBonds(x: Tables, text: string)
    requires TablesOpen(x) && x.openCell.Some?
    ensures var y := WithCellText(x, text);
            |y.items| == |x.items| && y == x.(items := y.items, text := y.text)
  {
    hide OpenCellOf, TakesText;
  }

  /** At most a cell, an entry's value or an open block has more of it. */
  predicate OnlyTexts(d: Draft, e: Draft) {
    && |e.metadata.items| == |d.metadata.items| && e.metadata.uids == d.metadata.uids && e.metadata.events == d.metadata.events
    && |e.tables.items| == |d.tables.items| && e.tables == d.tables.(items := e.tables.items, text := e.tables.text)
    && e.profiles == d.profiles.(blocks := e.profiles.blocks) && e.thumbnails == d.thumbnails.(blocks := e.thumbnails.blocks)
    && e.ancillaries == d.ancillaries
  }

  lemma BlockTextDraft(s: State, text: string, blank: bool, options: HeaderOptions)
    requires text != "" && !NoneOpen(s.draft.encoded) && TextTaken(s, text, blank, options).Some?
    ensures OnlyTexts(s.draft, TextTaken(s, text, blank, options).value.draft)
  {
    hide E.Feed, TextAllowed;
  }

  lemma CellTextDraft(s: State, text: string, blank: bool, options: HeaderOptions)
    requires text != "" && NoneOpen(s.draft.encoded) && s.draft.tables.openCell.Some? && TextTaken(s, text, blank, options).Some?
    ensures OnlyTexts(s.draft, TextTaken(s, text, blank, options).value.draft)
  {
    assert TablesOpen(s.draft.tables);
    hide TextAllowed, WithCellText, TablesOpen;
    CellTextBonds(s.draft.tables, text);
  }

  lemma OtherTextDraft(s: State, text: string, blank: bool, options: HeaderOptions)
    requires text != "" && NoneOpen(s.draft.encoded) && s.draft.tables.openCell.None? && TextTaken(s, text, blank, options).Some?
    ensures OnlyTexts(s.draft, TextTaken(s, text, blank, options).value.draft)
  {
    hide TextAllowed, TablesOpen, WithCellText;
  }

  lemma TextKeepsBonds(s: State, text: string, blank: bool, options: HeaderOptions)
    requires TextTaken(s, text, blank, options).Some?
    ensures SameBonds(s.draft, TextTaken(s, text, blank, options).value.draft)
  {
    if text != "" {
      if !NoneOpen(s.draft.encoded) {
        BlockTextDraft(s, text, blank, options);
      } else if s.draft.tables.openCell.Some? {
        CellTextDraft(s, text, blank, options);
      } else {
        OtherTextDraft(s, text, blank, options);
      }
      hide TextTaken;
    }
  }

  /** End tags and text tie nothing. */
  lemma StillTied(events: seq<Event>, n: nat, d: Draft, e: Draft)
    requires n < |events| && !events[n].Start? && Tied(events, n, d) && SameBonds(d, e)
    ensures Tied(events, n + 1, e)
  {
    AskedStep(events, n);
    assert Asked(events[..n]) + [] == Asked(events[..n]) && TableAsked(events[..n]) + [] == TableAsked(events[..n]);
    hide Asked, TableAsked, Count, Uids, Binds, UidsName;
    var after := n + 1;
    forall o
      ensures TiedAt(o, events, after, e)
    {
      assert TiedAt(o, events, n, d);
      DeclaredStep(o, events, n);
      InsideStep(o, events, n);
      assert Declared(o, events[..n]) + [] == Declared(o, events[..n]);
      SameNames(o, Uids(o, d), events, n);
    }
  }

  lemma SameNames(o: Object, uids: map<string, nat>, events: seq<Event>, n: nat)
    requires n < |events| && !events[n].Start? && UidsName(o, uids, events, n)
    ensures UidsName(o, uids, events, n + 1)
  {
    DeclaredStep(o, events, n);
    hide Declared, ListNames;
  }

  lemma TiedEnd(events: seq<Event>, n: nat, s: State, name: Name, options: HeaderOptions)
    requires n < |events| && Tied(events, n, s.draft) && events[n] == End(name) && EndTaken(s, options).Some?
    ensures Tied(events, n + 1, EndTaken(s, options).value.draft)
  {
    hide ElementEnded, Tied, SameBonds;
    EndKeepsBonds(Top(s.stack.elements), s.draft, options);
    StillTied(events, n, s.draft, EndTaken(s, options).value.draft);
  }

  lemma TiedText(events: seq<Event>, n: nat, s: State, text: string, blank: bool, options: HeaderOptions)
    requires n < |events| && Tied(events, n, s.draft) && events[n] == Text(text, blank) && TextTaken(s, text, blank, options).Some?
    ensures Tied(events, n + 1, TextTaken(s, text, blank, options).value.draft)
  {
    hide TextTaken, Tied, SameBonds;
    TextKeepsBonds(s, text, blank, options);
    StillTied(events, n, s.draft, TextTaken(s, text, blank, options).value.draft);
  }

  lemma TiedBlank(events: seq<Event>, n: nat, d: Draft)
    requires n < |events| && Tied(events, n, d) && events[n].Text?
    ensures Tied(events, n + 1, d)
  {
    hide Tied;
    StillTied(events, n, d, d);
  }

  // ---------------------------------------------------------------- the bindings of the document

  /** The first object whose start tag has this identifier. */
  function Owner(o: Object, events: seq<Event>, uid: string, i: nat): Option<nat>
    decreases |Declared(o, events)| - i
  {
    var starts := Declared(o, events);
    if i >= |starts| then None else if NamedBy(o, events, starts[i], uid) then Some(i) else Owner(o, events, uid, i + 1)
  }

  lemma {:induction false} OwnerIs(o: Object, uids: map<string, nat>, events: seq<Event>, uid: string, i: nat)
    requires ListNames(o, uids, events, Declared(o, events)) && (uid in uids ==> i <= uids[uid])
    ensures Owner(o, events, uid, i) == if uid in uids then Some(uids[uid]) else None
    decreases |Declared(o, events)| - i
  {
    var starts := Declared(o, events);
    hide Declared;
    if i < |starts| {
      assert NamesAll(o, uids, events, starts[i], i);
      if !NamedBy(o, events, starts[i], uid) {
        OwnerIs(o, uids, events, uid, i + 1);
      }
    }
  }

  /** Entries are bound where they stand, and where a Reference names one. */
  function EntryBindings(asked: seq<MetadataEvent>, events: seq<Event>): seq<MetadataBinding> {
    if asked == [] then []
    else
      var e := asked[|asked| - 1];
      EntryBindings(asked[..|asked| - 1], events)
      + match e
        case Direct(index, scope, image) => [MetadataBinding(index, scope, image, false)]
        case ByReference(reference, scope, image) =>
          var owner := Owner(AnEntry, events, reference, 0);
          if owner.Some? then [MetadataBinding(owner.value, scope, image, true)] else []
  }

  /** Other objects are bound where a Reference inside an image names one. */
  function ReferredBindings(o: Object, asked: seq<MetadataEvent>, events: seq<Event>): seq<Binding> {
    if asked == [] then []
    else
      var e := asked[|asked| - 1];
      ReferredBindings(o, asked[..|asked| - 1], events)
      + if e.ByReference? && e.scope == ImageScope && e.image.Some? && Owner(o, events, e.reference, 0).Some?
        then [HeaderDocument.Binding(Owner(o, events, e.reference, 0).value, e.image.value, true)] else []
  }

  /** And first, in order, where they stand. */
  function ObjectBindings(o: Object, events: seq<Event>): seq<Binding> {
    var inside := Inside(o, events);
    seq(|inside|, k requires 0 <= k < |inside| => HeaderDocument.Binding(inside[k].item, inside[k].image, false))
    + ReferredBindings(o, Asked(events), events)
  }

  lemma {:induction false} EntriesBound(asked: seq<MetadataEvent>, uids: map<string, nat>, events: seq<Event>)
    requires ListNames(AnEntry, uids, events, Declared(AnEntry, events))
    ensures BindingsOf(asked, uids) == EntryBindings(asked, events)
    decreases |asked|
  {
    hide ListNames, Declared, Owner;
    if asked != [] {
      EntriesBound(asked[..|asked| - 1], uids, events);
      var e := asked[|asked| - 1];
      if e.ByReference? {
        OwnerIs(AnEntry, uids, events, e.reference, 0);
      }
    }
  }

  lemma {:induction false} ObjectsReferred(o: Object, asked: seq<MetadataEvent>, uids: map<string, nat>, events: seq<Event>)
    requires ListNames(o, uids, events, Declared(o, events))
    ensures ReferenceBindings(asked, uids) == ReferredBindings(o, asked, events)
    decreases |asked|
  {
    hide ListNames, Declared, Owner;
    if asked != [] {
      ObjectsReferred(o, asked[..|asked| - 1], uids, events);
      var e := asked[|asked| - 1];
      if e.ByReference? {
        OwnerIs(o, uids, events, e.reference, 0);
      }
    }
  }

  /** Every binding of the document is one that the events call for, and these are all, in order. */
  predicate BoundAsAsked(events: seq<Event>, doc: Document) {
    && doc.metadata == EntryBindings(Asked(events), events)
    && doc.profiles == ObjectBindings(AProfile, events)
    && doc.ancillaries == ObjectBindings(AnAncillary, events)
    && doc.thumbnails == ObjectBindings(AThumbnail, events)
    && doc.tables == ObjectBindings(ATable, events)
  }

  lemma OneKindBound(o: Object, events: seq<Event>, d: Draft)
    requires Tied(events, |events|, d) && Binding(o)
    ensures DirectBindings(Binds(o, d)) + ReferenceBindings(d.metadata.events, Uids(o, d)) == ObjectBindings(o, events)
  {
    assert TiedAt(o, events, |events|, d) && events[..|events|] == events;
    hide Declared, Inside, Asked, ListNames;
    ObjectsReferred(o, d.metadata.events, Uids(o, d), events);
    assert DirectBindings(Binds(o, d)) == ObjectBindings(o, events)[..|Inside(o, events)|];
  }

  lemma BindingsAtTheEnd(events: seq<Event>, d: Draft, doc: Document)
    requires Tied(events, |events|, d) && doc == Composed(d, Resolved(d.tables), doc.extensions)
    ensures BoundAsAsked(events, doc)
  {
    assert TiedAt(AnEntry, events, |events|, d) && events[..|events|] == events;
    OneKindBound(AProfile, events, d);
    OneKindBound(AnAncillary, events, d);
    OneKindBound(AThumbnail, events, d);
    OneKindBound(ATable, events, d);
    hide Declared, Inside, Asked, ListNames, Tied, ObjectBindings, BindingsOf, ReferenceBindings, DirectBindings, EntryBindings;
    EntriesBound(d.metadata.events, d.metadata.uids, events);
    assert d.metadata.events == Asked(events) by {
      AskedIs(events, d);
    }
  }

  lemma AskedIs(events: seq<Event>, d: Draft)
    requires Tied(events, |events|, d)
    ensures d.metadata.events == Asked(events)
  {
    assert events[..|events|] == events;
  }
}
