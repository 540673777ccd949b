/** Which structure an accepted header gives to each table: its own, or the standalone one that its Reference names. */
module HeaderTables {
  import opened Base
  import opened HeaderStack
  import opened Locations
  import opened HeaderLists
  import opened HeaderDraft
  import opened HeaderDocument
  import opened HeaderEvents
  import opened HeaderValues
  import opened HeaderRecords
  import opened HeaderBindings
  import E = EncodedText

  /** The structure that stands inside table number `t`. */
  function OwnStructure(events: seq<Event>, t: nat): Option<nat> {
    if events == [] then None
    else
      var n := |events| - 1;
      if events[n].Start? && events[n].tag.name == Structure && ParentAt(events, n) == Some(Table)
         && |Declared(ATable, events[..n])| == t + 1
      then Some(|Declared(AStructure, events[..n])|)
      else OwnStructure(events[..n], t)
  }

  /** The structures of the tables so far. */
  function Column(items: seq<TableRec>): (r: seq<Option<nat>>)
    ensures |r| == |items|
  {
    seq(|items|, t requires 0 <= t < |items| => items[t].structure)
  }

  predicate Structured(events: seq<Event>, n: nat, d: Draft)
    requires n <= |events|
  {
    forall t: nat | t < |d.tables.items| :: d.tables.items[t].structure == OwnStructure(events[..n], t)
  }

  lemma StructuredNothing(events: seq<Event>)
    ensures Structured(events, 0, EmptyDraft())
  {
  }

  /** What a start tag does to them. */
  predicate ColumnGrows(tag: Tag, d: Draft, e: Draft, parent: Option<Name>) {
    var x, y := Column(d.tables.items), Column(e.tables.items);
    if tag.name == Table then y == x + [None]
    else if tag.name == Structure && parent == Some(Table) then x != [] && y == x[|x| - 1 := Some(|d.tables.structures|)]
    else y == x
  }

  lemma TableColumn(outer: seq<Name>, tag: Tag, d: Draft, options: HeaderOptions)
    requires tag.name == Table && TableStarted(outer, tag, d, options).Some?
    ensures ColumnGrows(tag, d, TableStarted(outer, tag, d, options).value, None)
  {
    hide Emplace, Bind;
  }

  lemma StructureColumn(outer: seq<Name>, tag: Tag, d: Draft, options: HeaderOptions)
    requires outer != [] && tag.name == Structure && StructureStarted(outer, tag, d, options).Some? && LastOpen(d.tables)
    ensures ColumnGrows(tag, d, StructureStarted(outer, tag, d, options).value, Some(Top(outer)))
  {
    hide Emplace;
    var e := StructureStarted(outer, tag, d, options).value;
    if Top(outer) == Table {
      assert Column(e.tables.items) == Column(d.tables.items)[|d.tables.items| - 1 := Some(|d.tables.structures|)];
    } else {
      assert e.tables.items == d.tables.items;
    }
  }

  lemma RowsColumn(outer: seq<Name>, tag: Tag, d: Draft, options: HeaderOptions)
    requires tag.name == Row || tag.name == Cell || tag.name == Field
    requires KindStarted(outer, tag, d, options).Some?
    ensures ColumnGrows(tag, d, KindStarted(outer, tag, d, options).value, None)
  {
    hide ParseLocation, CellOf;
    var e := KindStarted(outer, tag, d, options).value;
    assert |e.tables.items| == |d.tables.items| && forall t | 0 <= t < |d.tables.items| :: e.tables.items[t].structure == d.tables.items[t].structure;
  }

  lemma OtherColumn(outer: seq<Name>, tag: Tag, d: Draft, options: HeaderOptions)
    requires tag.name != Table && tag.name != Structure && tag.name != Row && tag.name != Cell && tag.name != Field
    requires KindStarted(outer, tag, d, options).Some?
    ensures KindStarted(outer, tag, d, options).value.tables.items == d.tables.items
  {
    hide ParseLocation, Emplace, TableStarted, StructureStarted, FieldStarted, RowStarted, CellStarted, EntryAdded, ImageAdded;
  }

  lemma StartColumn(outer: seq<Name>, tag: Tag, d: Draft, options: HeaderOptions)
    requires outer != [] && KindStarted(outer, tag, d, options).Some? && LastOpen(d.tables)
    ensures ColumnGrows(tag, d, KindStarted(outer, tag, d, options).value, Some(Top(outer)))
  {
    hide TableStarted, StructureStarted, LastOpen;
    if tag.name == Table {
      TableColumn(outer, tag, d, options);
    } else if tag.name == Structure {
      StructureColumn(outer, tag, d, options);
    } else {
      if tag.name == Row || tag.name == Cell || tag.name == Field {
        RowsColumn(outer, tag, d, options);
      } else {
        OtherColumn(outer, tag, d, options);
      }
      hide KindStarted;
    }
  }

  lemma {:induction false} NotYet(events: seq<Event>, t: nat)
    requires |Declared(ATable, events)| <= t
    ensures OwnStructure(events, t) == None
    decreases |events|
  {
    hide ParentAt;
    if events != [] {
      NotYet(events[..|events| - 1], t);
    }
  }

  lemma OwnLast(events: seq<Event>, t: nat)
    requires events != []
    ensures var n := |events| - 1;
            OwnStructure(events, t)
            == if events[n].Start? && events[n].tag.name == Structure && ParentAt(events, n) == Some(Table)
                  && |Declared(ATable, events[..n])| == t + 1
               then Some(|Declared(AStructure, events[..n])|) else OwnStructure(events[..n], t)
  {
    hide ParentAt, Declared;
  }

  lemma OwnStep(events: seq<Event>, n: nat, t: nat)
    requires n < |events|
    ensures OwnStructure(events[..n + 1], t)
         == if events[n].Start? && events[n].tag.name == Structure && ParentAt(events, n) == Some(Table)
               && |Declared(ATable, events[..n])| == t + 1
            then Some(|Declared(AStructure, events[..n])|) else OwnStructure(events[..n], t)
  {
    OwnLast(events[..n + 1], t);
    SamePlace(events, n);
    assert events[..n + 1][..n] == events[..n];
    hide ParentAt, ImageAt, Declared, OwnStructure;
  }

  lemma StructuredStarts(events: seq<Event>, n: nat, d: Draft, e: Draft, parent: Option<Name>)
    requires n < |events| && events[n].Start? && Structured(events, n, d) && ColumnGrows(events[n].tag, d, e, parent)
    requires parent == ParentAt(events, n)
    requires |d.tables.items| == |Declared(ATable, events[..n])| && |d.tables.structures| == |Declared(AStructure, events[..n])|
    ensures Structured(events, n + 1, e)
  {
    var x, y := Column(d.tables.items), Column(e.tables.items);
    hide ParentAt, Declared, OwnStructure;
    forall t: nat | t < |e.tables.items|
      ensures e.tables.items[t].structure == OwnStructure(events[..n + 1], t)
    {
      OwnStep(events, n, t);
      assert e.tables.items[t].structure == y[t];
      if t < |d.tables.items| {
        assert d.tables.items[t].structure == x[t];
      } else {
        NotYet(events[..n], t);
      }
    }
  }

  lemma StartOfColumn(s: State, tag: Tag, options: HeaderOptions)
    requires StartTaken(s, tag, options).Some? && LastOpen(s.draft.tables) && Heights(s.stack, s.depth, |s.extensions.items|)
    ensures ColumnGrows(tag, s.draft, StartTaken(s, tag, options).value.draft,
                        if s.stack.elements == [] then None else Some(Top(s.stack.elements)))
  {
    hide KindStarted, RangesOf, BadAttachment, LastOpen, Column;
    if Entered(s, tag, options).value.depth != 1 {
      StartColumn(s.stack.elements, tag, UidRegistered(tag, s.draft).value, options);
    }
  }

  lemma StructuredStart(events: seq<Event>, n: nat, s: State, tag: Tag, options: HeaderOptions)
    requires n < |events| && Valued(events, n, s) && Listed(events, n, s) && Tied(events, n, s.draft) && Structured(events, n, s.draft)
    requires events[n] == Start(tag) && StartTaken(s, tag, options).Some? && Consistent(s.stack.elements, s.draft, options)
    requires Heights(s.stack, s.depth, |s.extensions.items|)
    ensures Structured(events, n + 1, StartTaken(s, tag, options).value.draft)
  {
    hide StartTaken, ColumnGrows, Structured, Consistent, Heights, ExtensionsLinked, CellIsLast, LastOpen, UidsName, Declared;
    hide ImageAt, ParentAt, EntriesFollow, BlocksFollow, CollectorIsOpen, OpenStarts, Recorded, NamesAt;
    assert Recorded(Pictures, events, n, s.draft, s.extensions);
    CurrentIs(events, n, s, options);
    if s.stack.elements == [] {
      NoParent(events, n, s);
    }
    TiedCounts(events, n, s.draft);
    hide Tied, Valued, Listed;
    StartOfColumn(s, tag, options);
    StructuredStarts(events, n, s.draft, StartTaken(s, tag, options).value.draft,
                     if s.stack.elements == [] then None else Some(Top(s.stack.elements)));
  }

  lemma TiedCounts(events: seq<Event>, n: nat, d: Draft)
    requires n <= |events| && Tied(events, n, d)
    ensures |d.tables.items| == |Declared(ATable, events[..n])| && |d.tables.structures| == |Declared(AStructure, events[..n])|
  {
    hide UidsName, Declared;
    assert TiedAt(ATable, events, n, d) && TiedAt(AStructure, events, n, d);
  }

  lemma StillStructured(events: seq<Event>, n: nat, d: Draft, e: Draft)
    requires n < |events| && !events[n].Start? && Structured(events, n, d) && Column(e.tables.items) == Column(d.tables.items)
    ensures Structured(events, n + 1, e)
  {
    var x, y := Column(d.tables.items), Column(e.tables.items);
    hide OwnStructure;
    forall t: nat | t < |e.tables.items|
      ensures e.tables.items[t].structure == OwnStructure(events[..n + 1], t)
    {
      OwnStep(events, n, t);
      assert x[t] == y[t];
    }
  }

  lemma EndOfColumn(n: Name, d: Draft, options: HeaderOptions)
    requires ElementEnded(n, d, options).Some?
    ensures Column(ElementEnded(n, d, options).value.tables.items) == Column(d.tables.items)
  {
    hide EndsBlock;
  }

  lemma CellTextColumn(x: Tables, text: string)
    requires TablesOpen(x) && x.openCell.Some?
    ensures Column(WithCellText(x, text).items) == Column(x.items)
  {
    hide OpenCellOf, TakesText;
  }

  lemma TextOfColumn(s: State, text: string, blank: bool, options: HeaderOptions)
    requires TextTaken(s, text, blank, options).Some?
    ensures Column(TextTaken(s, text, blank, options).value.draft.tables.items) == Column(s.draft.tables.items)
  {
    if text != "" && NoneOpen(s.draft.encoded) && s.draft.tables.openCell.Some? {
      assert TablesOpen(s.draft.tables);
      CellTextColumn(s.draft.tables, text);
    }
    hide E.Feed, TextAllowed, TablesOpen, WithCellText, Column;
  }

  lemma StructuredEnd(events: seq<Event>, n: nat, s: State, name: Name, options: HeaderOptions)
    requires n < |events| && Structured(events, n, s.draft) && events[n] == End(name) && EndTaken(s, options).Some?
    ensures Structured(events, n + 1, EndTaken(s, options).value.draft)
  {
    hide ElementEnded, Structured, Column;
    EndOfColumn(Top(s.stack.elements), s.draft, options);
    StillStructured(events, n, s.draft, EndTaken(s, options).value.draft);
  }

  lemma StructuredText(events: seq<Event>, n: nat, s: State, text: string, blank: bool, options: HeaderOptions)
    requires n < |events| && Structured(events, n, s.draft) && events[n] == Text(text, blank) && TextTaken(s, text, blank, options).Some?
    ensures Structured(events, n + 1, TextTaken(s, text, blank, options).value.draft)
  {
    hide TextTaken, Structured, Column;
    TextOfColumn(s, text, blank, options);
    StillStructured(events, n, s.draft, TextTaken(s, text, blank, options).value.draft);
  }

  lemma StructuredBlank(events: seq<Event>, n: nat, d: Draft)
    requires n < |events| && Structured(events, n, d) && events[n].Text?
    ensures Structured(events, n + 1, d)
  {
    StillStructured(events, n, d, d);
  }

  // ---------------------------------------------------------------- the document

  /** A table with a Reference has the standalone structure that it names, and any other table its own. */
  predicate TablesStructured(events: seq<Event>, doc: Document) {
    var asked, items := TableAsked(events), doc.draft.tables.items;
    forall t: nat | t < |items| ::
      && (forall k | 0 <= k < |asked| && asked[k].table == t :: items[t].structure == Owner(AStandalone, events, asked[k].reference, 0))
      && ((forall k | 0 <= k < |asked| :: asked[k].table != t) ==> items[t].structure == OwnStructure(events, t))
      && items[t].structure.Some?
  }

  /** After the references, a table has the structure of the one that is its own. */
  lemma {:induction false} AfterReferences(x: Tables, t: nat, n: nat)
    requires OneStructureEach(x) && t < |x.items| && n <= |x.references|
    ensures (forall k | 0 <= k < n :: x.references[k].table != t) ==> StructureAfter(x, t, n) == x.items[t].structure
    ensures forall k | 0 <= k < n && x.references[k].table == t ::
              x.references[k].reference in x.standaloneUids
              && StructureAfter(x, t, n) == Some(x.standaloneUids[x.references[k].reference])
  {
    if n > 0 {
      AfterReferences(x, t, n - 1);
    }
  }

  lemma StructuresAtTheEnd(events: seq<Event>, d: Draft, doc: Document)
    requires Tied(events, |events|, d) && Structured(events, |events|, d) && OneStructureEach(d.tables)
    requires doc.draft.tables == Resolved(d.tables)
    requires forall t | 0 <= t < |doc.draft.tables.items| :: doc.draft.tables.items[t].structure.Some?
    ensures TablesStructured(events, doc)
  {
    assert events[..|events|] == events && TiedAt(AStandalone, events, |events|, d);
    assert UidsName(AStandalone, d.tables.standaloneUids, events, |events|);
    hide UidsName, ListNames, Declared, TableAsked, Asked, OwnStructure, OneStructureEach, StructureAfter;
    var asked, items := TableAsked(events), doc.draft.tables.items;
    assert ListNames(AStandalone, d.tables.standaloneUids, events, Declared(AStandalone, events)) by {
      StandaloneNames(d.tables.standaloneUids, events);
    }
    forall t: nat | t < |items|
      ensures forall k | 0 <= k < |asked| && asked[k].table == t :: items[t].structure == Owner(AStandalone, events, asked[k].reference, 0)
      ensures (forall k | 0 <= k < |asked| :: asked[k].table != t) ==> items[t].structure == OwnStructure(events, t)
    {
      AfterReferences(d.tables, t, |asked|);
      forall k | 0 <= k < |asked| && asked[k].table == t
        ensures items[t].structure == Owner(AStandalone, events, asked[k].reference, 0)
      {
        OwnerIs(AStandalone, d.tables.standaloneUids, events, asked[k].reference, 0);
      }
    }
  }

  lemma StandaloneNames(uids: map<string, nat>, events: seq<Event>)
    requires UidsName(AStandalone, uids, events, |events|)
    ensures ListNames(AStandalone, uids, events, Declared(AStandalone, events))
  {
    hide ListNames, Declared;
    assert events[..|events|] == events;
  }
}
