/**
 What the lists of an accepted header hold: for every kind of element the start tags of that kind, in
 order, each with its attributes, at its place among the others, and with the text inside it.
 */
module HeaderRecords {
  import opened Base
  import opened HeaderStack
  import opened Locations
  import opened HeaderLists
  import opened HeaderDraft
  import opened HeaderDocument
  import opened HeaderEvents
  import opened HeaderValues
  import E = EncodedText

  // ---------------------------------------------------------------- records

  /** What is kept of one start tag. The value of an entry is settled in `HeaderValues`. */
  datatype Item =
    | TableItem(id: string, tableRows: Option<U64>, tableColumns: Option<U64>)
    | RowItem
    | CellItem(cell: CellRec)
    | StructureItem
    | FieldItem(fieldId: string, fieldKind: string)
    | BlockItem(block: BlockLocation)
    | ExtensionItem(extension: Extension)
    | EntryItem(entry: Entry)

  datatype Kind = Grid | Fields | Pictures | Previews | Colours | Foreigners | Metadatas

  function KindOf(n: Name): Option<Kind> {
    match n
    case Table => Some(Grid)
    case Row => Some(Grid)
    case Cell => Some(Grid)
    case Structure => Some(Fields)
    case Field => Some(Fields)
    case Image => Some(Pictures)
    case Thumbnail => Some(Previews)
    case IccProfile => Some(Colours)
    case Property => Some(Metadatas)
    case FitsKeyword => Some(Metadatas)
    case Foreign(_) => Some(Foreigners)
    case _ => None
  }

  function CellItems(cells: seq<CellRec>): (items: seq<Item>)
    ensures |items| == |cells|
  {
    seq(|cells|, i requires 0 <= i < |cells| => CellItem(cells[i]))
  }

  /** Each row, and behind it its cells. */
  function RowItems(body: seq<RowRec>): seq<Item> {
    if body == [] then [] else RowItems(body[..|body| - 1]) + ([RowItem] + CellItems(body[|body| - 1].cells))
  }

  /** Each table, and behind it its rows. */
  function TableItems(tables: seq<TableRec>): seq<Item> {
    if tables == [] then []
    else
      var t := tables[|tables| - 1];
      TableItems(tables[..|tables| - 1]) + ([TableItem(t.id, t.rows, t.columns)] + RowItems(t.body))
  }

  // The flat list says which rows and cells belong to which table and row.

  lemma SameCellItems(a: seq<CellRec>, b: seq<CellRec>)
    requires CellItems(a) == CellItems(b)
    ensures a == b
  {
    assert |a| == |CellItems(a)| == |b|;
    assert forall k | 0 <= k < |a| :: CellItems(a)[k] == CellItem(a[k]) && CellItems(b)[k] == CellItem(b[k]);
  }

  lemma {:induction false} RowsAreNoTables(body: seq<RowRec>)
    ensures forall k | 0 <= k < |RowItems(body)| :: RowItems(body)[k].RowItem? || RowItems(body)[k].CellItem?
  {
    if body != [] {
      RowsAreNoTables(body[..|body| - 1]);
    }
  }

  /** Two lists that end in a head and things that are no heads have the same head, at the same place. */
  lemma SameEnds(a: seq<Item>, x: Item, b: seq<Item>, a': seq<Item>, x': Item, b': seq<Item>, heads: set<Item>)
    requires a + ([x] + b) == a' + ([x'] + b') && x in heads && x' in heads
    requires (forall k | 0 <= k < |b| :: b[k] !in heads) && forall k | 0 <= k < |b'| :: b'[k] !in heads
    ensures a == a' && x == x' && b == b'
  {
    var s := a + ([x] + b);
    assert s[|a|] == x && s[|a'|] == x';
    assert forall k | |a| < k < |s| :: s[k] == b[k - |a| - 1];
    assert forall k | |a'| < k < |s| :: s[k] == b'[k - |a'| - 1];
    assert |a| == |a'|;
    assert s[..|a|] == a && (a' + ([x'] + b'))[..|a'|] == a';
    assert s[|a| + 1..] == b && (a' + ([x'] + b'))[|a'| + 1..] == b';
  }

  lemma {:induction false} RowsAreDetermined(a: seq<RowRec>, b: seq<RowRec>)
    requires RowItems(a) == RowItems(b)
    ensures a == b
    decreases |a|
  {
    if a != [] && b != [] {
      var m, n := |a| - 1, |b| - 1;
      SameEnds(RowItems(a[..m]), RowItem, CellItems(a[m].cells), RowItems(b[..n]), RowItem, CellItems(b[n].cells), {RowItem});
      RowsAreDetermined(a[..m], b[..n]);
      SameCellItems(a[m].cells, b[n].cells);
      assert a == a[..m] + [a[m]] && b == b[..n] + [b[n]];
    }
  }

  /** Two tables that differ at most in their structure. */
  predicate SameTable(a: TableRec, b: TableRec) {
    a.id == b.id && a.rows == b.rows && a.columns == b.columns && a.body == b.body
  }

  /** So two lists of tables with the same records are the same, but for the structures. */
  lemma {:induction false} TablesAreDetermined(a: seq<TableRec>, b: seq<TableRec>)
    requires TableItems(a) == TableItems(b)
    ensures |a| == |b| && forall t | 0 <= t < |a| :: SameTable(a[t], b[t])
    decreases |a|
  {
    if a != [] && b != [] {
      var s, t := a[|a| - 1], b[|b| - 1];
      var x, y := TableItem(s.id, s.rows, s.columns), TableItem(t.id, t.rows, t.columns);
      RowsAreNoTables(s.body);
      RowsAreNoTables(t.body);
      SameEnds(TableItems(a[..|a| - 1]), x, RowItems(s.body), TableItems(b[..|b| - 1]), y, RowItems(t.body), {x, y});
      RowsAreDetermined(s.body, t.body);
      TablesAreDetermined(a[..|a| - 1], b[..|b| - 1]);
    }
  }

  function FieldItems(fields: seq<FieldRec>): (items: seq<Item>)
    ensures |items| == |fields|
  {
    seq(|fields|, i requires 0 <= i < |fields| => FieldItem(fields[i].id, fields[i].kind))
  }

  /** Each structure, and behind it its fields. */
  function StructureItems(structures: seq<StructureRec>): seq<Item> {
    if structures == [] then []
    else StructureItems(structures[..|structures| - 1]) + ([StructureItem] + FieldItems(structures[|structures| - 1].fields))
  }

  function StoredItems(items: seq<Stored>): (r: seq<Item>)
    ensures |r| == |items|
  {
    seq(|items|, i requires 0 <= i < |items| => BlockItem(items[i].block))
  }

  function BlockItems(items: seq<BlockLocation>): (r: seq<Item>)
    ensures |r| == |items|
  {
    seq(|items|, i requires 0 <= i < |items| => BlockItem(items[i]))
  }

  function ExtensionItems(items: seq<Extension>): (r: seq<Item>)
    ensures |r| == |items|
  {
    seq(|items|, i requires 0 <= i < |items| => ExtensionItem(items[i]))
  }

  function EntryItems(items: seq<Entry>): (r: seq<Item>)
    ensures |r| == |items|
  {
    seq(|items|, i requires 0 <= i < |items| => EntryItem(items[i].(value := "")))
  }

  function DraftRecords(g: Kind, d: Draft): seq<Item> {
    match g
    case Grid => TableItems(d.tables.items)
    case Fields => StructureItems(d.tables.structures)
    case Pictures => StoredItems(d.images.items)
    case Previews => StoredItems(d.thumbnails.items)
    case Colours => BlockItems(d.profiles.items)
    case Metadatas => EntryItems(d.metadata.items)
    case Foreigners => []
  }

  function Records(g: Kind, d: Draft, x: Extensions): seq<Item> {
    if g == Foreigners then ExtensionItems(x.items) else DraftRecords(g, d)
  }

  // ---------------------------------------------------------------- what the events call for

  /** Where the elements of a kind started. */
  function Starts(g: Kind, events: seq<Event>): (starts: seq<nat>)
    ensures forall m | 0 <= m < |starts| :: starts[m] < |events| && events[starts[m]].Start? && KindOf(events[starts[m]].tag.name) == Some(g)
  {
    if events == [] then []
    else
      var before, e := Starts(g, events[..|events| - 1]), events[|events| - 1];
      if e.Start? && KindOf(e.tag.name) == Some(g) then before + [|events| - 1] else before
  }

  /** Where the innermost element that is open at `k` started. */
  function Innermost(events: seq<Event>, k: nat): Option<nat>
    requires k <= |events|
  {
    var open := OpenStarts(events[..k]);
    if open == [] then None else Some(open[|open| - 1])
  }

  /** The texts directly inside the element that starts at `p`, joined, up to event `n`. */
  function InnerText(events: seq<Event>, p: nat, n: nat): string
    requires n <= |events|
  {
    if n <= p + 1 then ""
    else InnerText(events, p, n - 1) + if events[n - 1].Text? && Innermost(events, n - 1) == Some(p) then events[n - 1].text else ""
  }

  /** A cell given as text, or as a block in the text. */
  predicate CellTakesText(tag: Tag) {
    FormOf(tag) == CharacterData || (FormOf(tag) == DataBlock && BlockOf(tag).kind == InlineData)
  }

  predicate ImageIsOpen(events: seq<Event>, k: nat)
    requires k <= |events|
  {
    exists m | 0 <= m < |OpenStarts(events[..k])| :: events[OpenStarts(events[..k])[m]].tag.name == Image
  }

  /** The number of the image whose element is open at `k`. */
  function ImageAt(events: seq<Event>, k: nat): Option<nat>
    requires k <= |events|
  {
    var images := |Starts(Pictures, events[..k])|;
    if ImageIsOpen(events, k) && images > 0 then Some(images - 1) else None
  }

  function ParentAt(events: seq<Event>, k: nat): Option<Name>
    requires k <= |events|
  {
    var p := Innermost(events, k);
    if p.Some? && p.value < |events| && events[p.value].Start? then Some(events[p.value].tag.name) else None
  }

  /** The record of a start tag, with this text inside its element. */
  function ItemOf(tag: Tag, text: string, image: Option<nat>, parent: Option<Name>): Item {
    match tag.name
    case Table => TableItem(tag.id, tag.rows, tag.columns)
    case Row => RowItem
    case Cell =>
      CellItem(CellRec(FormOf(tag), BlockOf(tag), tag.value.GetOr("") + if CellTakesText(tag) then text else "", tag.length, tag.rows, tag.columns))
    case Structure => StructureItem
    case Field => FieldItem(tag.id, tag.kind)
    case Property => EntryItem(EntryRecord(tag, FormOf(tag), BlockOf(tag), image, parent))
    case FitsKeyword => EntryItem(EntryRecord(tag, AttributeValue, BlockLocation(Unknown, 0, 0), image, parent))
    case Foreign(_) => ExtensionItem(Extension(image, text))
    case _ => BlockItem(BlockOf(tag))
  }

  function EntryRecord(tag: Tag, form: ValueForm, block: BlockLocation, image: Option<nat>, parent: Option<Name>): Entry {
    Entry(tag.name == Property, tag.id,
          if image.Some? then ImageScope else if parent == Some(Metadata) then UnitScope else StandaloneScope,
          image, form, block, "", tag.kind, tag.length, tag.rows, tag.columns)
  }

  function ItemAt(events: seq<Event>, p: nat, n: nat): Item
    requires p < n <= |events| && events[p].Start?
  {
    ItemOf(events[p].tag, InnerText(events, p, n), ImageAt(events, p), ParentAt(events, p))
  }

  /** The lists hold one record for each start tag, in order. */
  predicate Recorded(g: Kind, events: seq<Event>, n: nat, d: Draft, x: Extensions)
    requires n <= |events|
  {
    var starts, items := Starts(g, events[..n]), Records(g, d, x);
    && |items| == |starts|
    && forall i | 0 <= i < |starts| :: starts[i] < n && events[starts[i]].Start? && items[i] == ItemAt(events, starts[i], n)
  }

  // ---------------------------------------------------------------- what a start tag adds

  /** The open table, row and cell are the last ones. */
  predicate LastOpen(x: Tables) {
    && (x.open.Some? ==> x.open.value + 1 == |x.items|)
    && (x.open.Some? && x.openRow.Some? ==> x.openRow.value + 1 == |x.items[x.open.value].body|)
    && (x.open.Some? && x.openRow.Some? && x.openCell.Some? ==>
          x.openCell.value + 1 == |x.items[x.open.value].body[x.openRow.value].cells|)
    && (x.openStructure.Some? ==> x.openStructure.value + 1 == |x.structures|)
  }

  lemma MoreRow(body: seq<RowRec>)
    ensures RowItems(body + [RowRec([])]) == RowItems(body) + [RowItem]
  {
    assert (body + [RowRec([])])[..|body|] == body;
    assert [RowItem] + CellItems([]) == [RowItem];
  }

  lemma LastTable(items: seq<TableRec>, body: seq<RowRec>)
    requires items != []
    ensures var t := |items| - 1;
            TableItems(items[t := items[t].(body := body)])
            == TableItems(items[..t]) + ([TableItem(items[t].id, items[t].rows, items[t].columns)] + RowItems(body))
  {
    hide RowItems;
    var t := |items| - 1;
    assert items[t := items[t].(body := body)][..t] == items[..t];
  }

  lemma RowAddedItems(x: Tables, options: HeaderOptions)
    requires LastOpen(x) && x.openCell.None? && RowAdded(x, options).Some?
    ensures var y := RowAdded(x, options).value;
            && LastOpen(y) && TableItems(y.items) == TableItems(x.items) + [RowItem] && y.structures == x.structures
  {
    hide TableItems, RowItems;
    var t := |x.items| - 1;
    var body := x.items[t].body;
    assert x.items[t := x.items[t].(body := body)] == x.items;
    LastTable(x.items, body);
    LastTable(x.items, body + [RowRec([])]);
    MoreRow(body);
  }

  lemma LastRow(body: seq<RowRec>, cells: seq<CellRec>)
    requires body != []
    ensures RowItems(body[|body| - 1 := RowRec(cells)]) == RowItems(body[..|body| - 1]) + ([RowItem] + CellItems(cells))
  {
    var b := body[|body| - 1 := RowRec(cells)];
    assert b[..|b| - 1] == body[..|body| - 1];
  }

  /** Replacing the cells of the last row of the last table. */
  lemma LastCells(items: seq<TableRec>, cells: seq<CellRec>)
    requires items != [] && items[|items| - 1].body != []
    ensures var t := |items| - 1;
            var body := items[t].body;
            TableItems(items[t := items[t].(body := body[|body| - 1 := RowRec(cells)])])
            == TableItems(items[..t])
               + ([TableItem(items[t].id, items[t].rows, items[t].columns)] + (RowItems(body[..|body| - 1]) + ([RowItem] + CellItems(cells))))
  {
    var t := |items| - 1;
    var body := items[t].body;
    LastRow(body, cells);
    var now := items[t := items[t].(body := body[|body| - 1 := RowRec(cells)])];
    assert now[..t] == items[..t];
  }

  lemma SameCells(items: seq<TableRec>)
    requires items != [] && items[|items| - 1].body != []
    ensures var t := |items| - 1;
            var body := items[t].body;
            items[t := items[t].(body := body[|body| - 1 := RowRec(body[|body| - 1].cells)])] == items
  {
    var t := |items| - 1;
    var body := items[t].body;
    assert body[|body| - 1 := RowRec(body[|body| - 1].cells)] == body;
  }

  lemma CellAddedItems(x: Tables, tag: Tag, options: HeaderOptions)
    requires LastOpen(x) && CellAdded(x, tag, options).Some?
    ensures var y := CellAdded(x, tag, options).value;
            && LastOpen(y) && TableItems(y.items) == TableItems(x.items) + [CellItem(CellOf(tag))] && y.structures == x.structures
  {
    hide ParseLocation, CellOf, TableItems, RowItems;
    var t := |x.items| - 1;
    var row := |x.items[t].body| - 1;
    var cells := x.items[t].body[row].cells;
    LastCells(x.items, cells);
    SameCells(x.items);
    LastCells(x.items, cells + [CellOf(tag)]);
    assert CellItems(cells + [CellOf(tag)]) == CellItems(cells) + [CellItem(CellOf(tag))];
  }

  /** Text in the open cell is appended to the last record. */
  lemma CellTextItems(x: Tables, text: string)
    requires LastOpen(x) && TablesOpen(x) && x.openCell.Some?
    ensures var y, n := WithCellText(x, text), |TableItems(x.items)|;
            && LastOpen(y) && y.structures == x.structures
            && n > 0 && TableItems(x.items)[n - 1] == CellItem(OpenCellOf(x))
            && TableItems(y.items)
               == if TakesText(OpenCellOf(x))
                  then TableItems(x.items)[n - 1 := CellItem(OpenCellOf(x).(text := OpenCellOf(x).text + text))]
                  else TableItems(x.items)
  {
    hide TableItems, RowItems, TakesText;
    var t := |x.items| - 1;
    var row := |x.items[t].body| - 1;
    var cells := x.items[t].body[row].cells;
    var k := |cells| - 1;
    var cell := OpenCellOf(x).(text := OpenCellOf(x).text + text);
    LastCells(x.items, cells);
    SameCells(x.items);
    assert cells[k] == OpenCellOf(x) && CellItems(cells)[k] == CellItem(cells[k]);
    if TakesText(OpenCellOf(x)) {
      LastCells(x.items, cells[k := cell]);
      assert CellItems(cells[k := cell]) == CellItems(cells)[k := CellItem(cell)];
    }
  }

  lemma {:induction false} StructureDoesNotMatter(a: seq<TableRec>, b: seq<TableRec>)
    requires |a| == |b| && forall t | 0 <= t < |a| :: a[t].(structure := None) == b[t].(structure := None)
    ensures TableItems(a) == TableItems(b)
    decreases |a|
  {
    if a != [] {
      var t := |a| - 1;
      assert a[t].(structure := None) == b[t].(structure := None);
      StructureDoesNotMatter(a[..t], b[..t]);
    }
  }

  lemma StructureAddedItems(x: Tables, tag: Tag, inTable: bool, options: HeaderOptions)
    requires LastOpen(x) && StructureAdded(x, tag, inTable, options).Some?
    ensures var y := StructureAdded(x, tag, inTable, options).value;
            LastOpen(y) && TableItems(y.items) == TableItems(x.items) && StructureItems(y.structures) == StructureItems(x.structures) + [StructureItem]
  {
    hide Emplace, TableItems;
    var y := StructureAdded(x, tag, inTable, options).value;
    assert y.structures[..|x.structures|] == x.structures;
    StructureDoesNotMatter(x.items, y.items);
  }

  lemma FieldAddedItems(x: Tables, tag: Tag, options: HeaderOptions)
    requires LastOpen(x) && FieldAdded(x, tag, options).Some?
    ensures var y := FieldAdded(x, tag, options).value;
            && LastOpen(y) && y.items == x.items
            && StructureItems(y.structures) == StructureItems(x.structures) + [FieldItem(tag.id, tag.kind)]
  {
    var y, i := FieldAdded(x, tag, options).value, |x.structures| - 1;
    var fields := x.structures[i].fields;
    assert y.structures[..i] == x.structures[..i];
    assert FieldItems(fields + [FieldRec(tag.id, tag.kind)]) == FieldItems(fields) + [FieldItem(tag.id, tag.kind)];
  }

  lemma TableAddedItems(x: Tables, tag: Tag, current: Option<nat>, options: HeaderOptions)
    requires LastOpen(x) && TableAdded(x, tag, current, options).Some? && x.openRow.None?
    ensures var y := TableAdded(x, tag, current, options).value;
            && LastOpen(y) && TableItems(y.items) == TableItems(x.items) + [TableItem(tag.id, tag.rows, tag.columns)]
            && y.structures == x.structures
  {
    hide Emplace;
    var y := TableAdded(x, tag, current, options).value;
    assert y.items[..|x.items|] == x.items;
  }

  /** What a start tag adds to the lists. */
  predicate Grows(tag: Tag, d: Draft, e: Draft, image: Option<nat>, parent: Option<Name>) {
    LastOpen(e.tables)
    && forall g | g != Foreigners ::
         DraftRecords(g, e) == DraftRecords(g, d) + if KindOf(tag.name) == Some(g) then [ItemOf(tag, "", image, parent)] else []
  }

  lemma TablesGrow(outer: seq<Name>, tag: Tag, d: Draft, image: Option<nat>, parent: Option<Name>, options: HeaderOptions)
    requires tag.name == Table || tag.name == Row || tag.name == Cell || tag.name == Structure || tag.name == Field
    requires KindStarted(outer, tag, d, options).Some? && LastOpen(d.tables)
    requires (tag.name == Table ==> d.tables.openRow.None?) && (tag.name == Row ==> d.tables.openCell.None?)
    ensures Grows(tag, d, KindStarted(outer, tag, d, options).value, image, parent)
  {
    hide TableAdded, RowAdded, CellAdded, StructureAdded, FieldAdded, TableItems, StructureItems, LastOpen, ParseLocation;
    var e := KindStarted(outer, tag, d, options).value;
    match tag.name
    case Table => TableAddedItems(d.tables, tag, CurrentImage(d), options);
    case Row => RowAddedItems(d.tables, options);
    case Cell => CellAddedItems(d.tables, tag, options); assert tag.value.GetOr("") + "" == tag.value.GetOr("");
    case Structure => StructureAddedItems(d.tables, tag, |outer| >= 2 && Parent(outer) == Table && d.tables.open.Some?, options);
    case Field => FieldAddedItems(d.tables, tag, options);
  }

  lemma BlocksGrowBy(outer: seq<Name>, tag: Tag, d: Draft, image: Option<nat>, parent: Option<Name>, options: HeaderOptions)
    requires tag.name == Image || tag.name == Thumbnail || tag.name == IccProfile
    requires KindStarted(outer, tag, d, options).Some? && LastOpen(d.tables)
    ensures Grows(tag, d, KindStarted(outer, tag, d, options).value, image, parent)
  {
    hide TableItems, StructureItems, LastOpen, ParseLocation, Emplace, Bind;
    var e := KindStarted(outer, tag, d, options).value;
    assert tag.name == Image ==> StoredItems(e.images.items) == StoredItems(d.images.items) + [BlockItem(BlockOf(tag))];
    assert tag.name == Thumbnail ==> StoredItems(e.thumbnails.items) == StoredItems(d.thumbnails.items) + [BlockItem(BlockOf(tag))];
    assert tag.name == IccProfile ==> BlockItems(e.profiles.items) == BlockItems(d.profiles.items) + [BlockItem(BlockOf(tag))];
  }

  lemma EntriesGrowBy(outer: seq<Name>, tag: Tag, d: Draft, options: HeaderOptions)
    requires IsEntry(tag) && outer != []
    requires KindStarted(outer, tag, d, options).Some? && LastOpen(d.tables)
    ensures Grows(tag, d, KindStarted(outer, tag, d, options).value, CurrentImage(d), Some(Top(outer)))
  {
    hide TableItems, StructureItems, LastOpen, ParseLocation, Emplace;
    var e := KindStarted(outer, tag, d, options).value;
    var n := |d.metadata.items|;
    assert e.metadata.items == d.metadata.items + [e.metadata.items[n]];
    assert EntryItems(e.metadata.items) == EntryItems(d.metadata.items) + [EntryItem(e.metadata.items[n].(value := ""))];
  }

  lemma DataGrows(outer: seq<Name>, tag: Tag, d: Draft, image: Option<nat>, parent: Option<Name>, options: HeaderOptions)
    requires tag.name == Data && KindStarted(outer, tag, d, options).Some? && LastOpen(d.tables)
    ensures Grows(tag, d, KindStarted(outer, tag, d, options).value, image, parent)
  {
    hide TableItems, StructureItems, LastOpen, ParseLocation;
    var e := KindStarted(outer, tag, d, options).value;
    assert StoredItems(e.images.items) == StoredItems(d.images.items) && StoredItems(e.thumbnails.items) == StoredItems(d.thumbnails.items);
  }

  lemma OthersGrow(outer: seq<Name>, tag: Tag, d: Draft, image: Option<nat>, parent: Option<Name>, options: HeaderOptions)
    requires tag.name != Data && (KindOf(tag.name).None? || tag.name.Foreign?) && KindStarted(outer, tag, d, options).Some? && LastOpen(d.tables)
    ensures Grows(tag, d, KindStarted(outer, tag, d, options).value, image, parent)
  {
    hide TableItems, StructureItems, ParseLocation;
  }

  lemma StartGrows(outer: seq<Name>, tag: Tag, d: Draft, options: HeaderOptions)
    requires outer != [] && KindStarted(outer, tag, d, options).Some? && LastOpen(d.tables)
    requires (tag.name == Table ==> d.tables.openRow.None?) && (tag.name == Row ==> d.tables.openCell.None?)
    ensures Grows(tag, d, KindStarted(outer, tag, d, options).value, CurrentImage(d), Some(Top(outer)))
  {
    hide KindStarted, Grows, LastOpen;
    var image, parent := CurrentImage(d), Some(Top(outer));
    if IsEntry(tag) {
      EntriesGrowBy(outer, tag, d, options);
    } else if tag.name == Image || tag.name == Thumbnail || tag.name == IccProfile {
      BlocksGrowBy(outer, tag, d, image, parent, options);
    } else if tag.name == Data {
      DataGrows(outer, tag, d, image, parent, options);
    } else if tag.name == Table || tag.name == Row || tag.name == Cell || tag.name == Structure || tag.name == Field {
      TablesGrow(outer, tag, d, image, parent, options);
    } else {
      OthersGrow(outer, tag, d, image, parent, options);
    }
  }

  // ---------------------------------------------------------------- the invariant of a run

  /** An open extension element stands for its own record. */
  predicate ExtensionsLinked(events: seq<Event>, n: nat, s: Stack)
    requires n <= |events|
  {
    var open, starts := OpenStarts(events[..n]), Starts(Foreigners, events[..n]);
    && |s.extensions| == |open|
    && forall m | 0 <= m < |open| ::
         && open[m] < |events| && events[open[m]].Start?
         && (s.extensions[m].Some? <==> events[open[m]].tag.name.Foreign?)
         && (s.extensions[m].Some? ==> s.extensions[m].value < |starts| && starts[s.extensions[m].value] == open[m])
  }

  /** A cell is open only as the innermost element, and nothing of a table has started since. */
  predicate CellIsLast(events: seq<Event>, n: nat)
    requires n <= |events|
  {
    var open, starts := OpenStarts(events[..n]), Starts(Grid, events[..n]);
    && AreStarts(events, open)
    && (forall m | 0 <= m < |open| - 1 :: events[open[m]].tag.name != Cell)
    && (open != [] && events[open[|open| - 1]].tag.name == Cell ==> starts != [] && starts[|starts| - 1] == open[|open| - 1])
  }

  predicate AllRecorded(events: seq<Event>, n: nat, d: Draft, x: Extensions)
    requires n <= |events|
  {
    forall g :: Recorded(g, events, n, d, x)
  }

  predicate Listed(events: seq<Event>, n: nat, s: State)
    requires n <= |events|
  {
    && LastOpen(s.draft.tables) && AllRecorded(events, n, s.draft, s.extensions)
    && ExtensionsLinked(events, n, s.stack) && CellIsLast(events, n)
  }

  lemma KeptNothing(events: seq<Event>)
    ensures Listed(events, 0, Beginning)
  {
    assert events[..0] == [];
    forall g
      ensures Recorded(g, events, 0, Beginning.draft, Beginning.extensions)
    {
    }
  }

  lemma StartsStep(g: Kind, events: seq<Event>, n: nat)
    requires n < |events|
    ensures Starts(g, events[..n + 1])
         == Starts(g, events[..n]) + if events[n].Start? && KindOf(events[n].tag.name) == Some(g) then [n] else []
  {
    assert events[..n + 1][..n] == events[..n];
  }

  lemma SameItem(events: seq<Event>, p: nat, n: nat)
    requires p < n < |events| && events[p].Start?
    requires !TakesNow(events, p, n)
    ensures ItemAt(events, p, n + 1) == ItemAt(events, p, n)
  {
    assert InnerText(events, p, n) + "" == InnerText(events, p, n);
    if KeepsText(events[p].tag) {
      hide Innermost, ItemOf, ImageAt, ParentAt;
    } else {
      hide InnerText, ImageAt, ParentAt;
    }
  }

  /** Elements whose text is kept in their record. */
  predicate KeepsText(tag: Tag) {
    tag.name == Cell || tag.name.Foreign?
  }

  /** Event `n` is text directly inside such an element, which starts at `p`. */
  predicate TakesNow(events: seq<Event>, p: nat, n: nat)
    requires p < n < |events| && events[p].Start?
  {
    events[n].Text? && events[n].text != "" && KeepsText(events[p].tag) && Innermost(events, n) == Some(p)
  }

  /** One more record for a start tag. */
  lemma RecordStarts(g: Kind, events: seq<Event>, n: nat, d: Draft, x: Extensions, e: Draft, y: Extensions, image: Option<nat>, parent: Option<Name>)
    requires n < |events| && events[n].Start? && Recorded(g, events, n, d, x)
    requires KindOf(events[n].tag.name) == Some(g) ==> image == ImageAt(events, n) && parent == ParentAt(events, n)
    requires Records(g, e, y)
          == Records(g, d, x) + if KindOf(events[n].tag.name) == Some(g) then [ItemOf(events[n].tag, "", image, parent)] else []
    ensures Recorded(g, events, n + 1, e, y)
  {
    StartsStep(g, events, n);
    var starts, items, more := Starts(g, events[..n]), Records(g, d, x), Records(g, e, y);
    hide Starts, Records, ItemAt, ImageAt, ParentAt, KindOf;
    forall i | 0 <= i < |starts|
      ensures starts[i] < n && events[starts[i]].Start? && more[i] == ItemAt(events, starts[i], n + 1)
    {
      assert items[i] == ItemAt(events, starts[i], n) && more[i] == items[i];
      SameItem(events, starts[i], n);
    }
    if KindOf(events[n].tag.name) == Some(g) {
      FirstItem(events, n);
    }
  }

  lemma FirstItem(events: seq<Event>, n: nat)
    requires n < |events| && events[n].Start?
    ensures ItemAt(events, n, n + 1) == ItemOf(events[n].tag, "", ImageAt(events, n), ParentAt(events, n))
  {
  }

  /** The records are as they were. */
  lemma RecordsStay(g: Kind, events: seq<Event>, n: nat, d: Draft, x: Extensions, e: Draft, y: Extensions)
    requires n < |events| && !events[n].Start? && Recorded(g, events, n, d, x) && Records(g, e, y) == Records(g, d, x)
    requires events[n].Text? && events[n].text != "" ==>
               var p := Innermost(events, n);
               p.Some? ==> p.value < |events| && events[p.value].Start? && !(KeepsText(events[p.value].tag) && KindOf(events[p.value].tag.name) == Some(g))
    ensures Recorded(g, events, n + 1, e, y)
  {
    StartsStep(g, events, n);
    var starts, items := Starts(g, events[..n]), Records(g, d, x);
    assert forall i | 0 <= i < |starts| :: starts[i] < n && events[..n][starts[i]] == events[starts[i]] && KindOf(events[starts[i]].tag.name) == Some(g);
    hide Starts, Records, ItemAt, Innermost, KindOf, KeepsText;
    forall i | 0 <= i < |starts|
      ensures starts[i] < n && events[starts[i]].Start? && items[i] == ItemAt(events, starts[i], n + 1)
    {
      assert items[i] == ItemAt(events, starts[i], n);
      SameItem(events, starts[i], n);
    }
  }

  lemma {:induction false} StartsDiffer(g: Kind, events: seq<Event>)
    ensures Increasing(Starts(g, events))
    decreases |events|
  {
    if events != [] {
      var front := events[..|events| - 1];
      StartsDiffer(g, front);
      var before := Starts(g, front);
      assert forall m | 0 <= m < |before| :: before[m] < |front|;
      assert Starts(g, events) == before || Starts(g, events) == before + [|front|];
    }
  }

  /** Text in record number `k`. */
  lemma RecordTakesText(g: Kind, events: seq<Event>, n: nat, d: Draft, x: Extensions, e: Draft, y: Extensions, k: nat)
    requires n < |events| && events[n].Text? && Recorded(g, events, n, d, x)
    requires k < |Starts(g, events[..n])| && Innermost(events, n) == Some(Starts(g, events[..n])[k]) && events[n].text != ""
    requires k < |Records(g, d, x)| && Records(g, e, y) == Records(g, d, x)[k := WithText(Records(g, d, x)[k], events[n].text)]
    requires var tag := events[Starts(g, events[..n])[k]].tag; tag.name == Cell || tag.name.Foreign?
    ensures Recorded(g, events, n + 1, e, y)
  {
    StartsStep(g, events, n);
    StartsDiffer(g, events[..n]);
    var starts, items, now := Starts(g, events[..n]), Records(g, d, x), Records(g, e, y);
    hide Starts, Records, Innermost, ItemAt, WithText;
    forall i | 0 <= i < |starts|
      ensures starts[i] < n && events[starts[i]].Start? && now[i] == ItemAt(events, starts[i], n + 1)
    {
      assert items[i] == ItemAt(events, starts[i], n);
      if i == k {
        MoreText(events, starts[k], n);
      } else {
        SameItem(events, starts[i], n);
      }
    }
  }

  function WithText(item: Item, text: string): Item {
    match item
    case CellItem(cell) => if TakesText(cell) then CellItem(cell.(text := cell.text + text)) else item
    case ExtensionItem(x) => ExtensionItem(x.(text := x.text + text))
    case _ => item
  }

  lemma MoreText(events: seq<Event>, p: nat, n: nat)
    requires p < n < |events| && events[p].Start? && events[n].Text? && Innermost(events, n) == Some(p)
    requires events[p].tag.name == Cell || events[p].tag.name.Foreign?
    ensures ItemAt(events, p, n + 1) == WithText(ItemAt(events, p, n), events[n].text)
  {
    hide Innermost, ParseLocation;
    var before := InnerText(events, p, n);
    assert InnerText(events, p, n + 1) == before + events[n].text;
    var value := events[p].tag.value.GetOr("");
    assert value + before + events[n].text == value + (before + events[n].text);
  }

  // ---------------------------------------------------------------- the steps of a run

  /** The image that the handlers take for the current one is the one whose element is open. */
  lemma CurrentIs(events: seq<Event>, n: nat, s: State, options: HeaderOptions)
    requires Valued(events, n, s) && Recorded(Pictures, events, n, s.draft, s.extensions)
    requires Consistent(s.stack.elements, s.draft, options)
    ensures CurrentImage(s.draft) == ImageAt(events, n)
    ensures s.stack.elements != [] ==> ParentAt(events, n) == Some(Top(s.stack.elements))
  {
    PictureCount(events, n, s);
    ImageLinks(s.stack.elements, s.draft, options);
    hide Consistent, Recorded, EntriesFollow, BlocksFollow, CollectorIsOpen;
    HasImage(events, n);
    var open := OpenStarts(events[..n]);
    if open != [] {
      LastName(events, open);
    }
    hide OpenStarts, Starts, NamesAt, ImageIsOpen;
  }

  lemma ImageLinks(elements: seq<Name>, d: Draft, options: HeaderOptions)
    requires Consistent(elements, d, options)
    ensures d.images.stack != [] <==> Image in elements
    ensures CurrentImage(d) == if Image in elements then Some(|d.images.items| - 1) else None
    ensures Image in elements ==> |d.images.items| > 0
  {
    hide GoodStack, EntriesOk, ProfilesOk, AncillariesOk, ThumbnailsOk, TablesOk, EncodedOk;
  }

  lemma HasImage(events: seq<Event>, n: nat)
    requires n <= |events| && AreStarts(events, OpenStarts(events[..n]))
    ensures ImageIsOpen(events, n) <==> Image in NamesAt(events, OpenStarts(events[..n]))
  {
    var open := OpenStarts(events[..n]);
    var names := NamesAt(events, open);
    assert forall m | 0 <= m < |open| :: names[m] == events[open[m]].tag.name;
  }

  lemma PictureCount(events: seq<Event>, n: nat, s: State)
    requires n <= |events| && Recorded(Pictures, events, n, s.draft, s.extensions)
    ensures |s.draft.images.items| == |Starts(Pictures, events[..n])|
  {
  }

  /** A start tag that is let in. */
  predicate StartTells(s: State, tag: Tag, t: State) {
    var outer := s.stack.elements;
    && t.stack.elements == outer + [tag.name] && |t.stack.extensions| == |s.stack.extensions| + 1
    && t.stack.extensions[..|s.stack.extensions|] == s.stack.extensions
    && (outer != [] ==> Top(outer) != Cell)
    && (if tag.name.Foreign?
        then t.extensions.items == s.extensions.items + [Extension(CurrentImage(s.draft), "")]
             && t.stack.extensions[|s.stack.extensions|] == Some(|s.extensions.items|)
        else t.extensions.items == s.extensions.items && t.stack.extensions[|s.stack.extensions|] == None)
    && LastOpen(t.draft.tables)
    && forall g | g != Foreigners ::
         DraftRecords(g, t.draft) == DraftRecords(g, s.draft)
         + if KindOf(tag.name) == Some(g) then [ItemOf(tag, "", CurrentImage(s.draft), if outer == [] then None else Some(Top(outer)))] else []
  }

  lemma StartTellsAll(s: State, tag: Tag, options: HeaderOptions)
    requires StartTaken(s, tag, options).Some? && LastOpen(s.draft.tables)
    requires Consistent(s.stack.elements, s.draft, options) && Heights(s.stack, s.depth, |s.extensions.items|)
    requires tag.name == Table ==> s.draft.tables.openRow.None?
    requires tag.name == Row ==> s.draft.tables.openCell.None?
    ensures StartTells(s, tag, StartTaken(s, tag, options).value)
  {
    hide Consistent, KindStarted, RangesOf, BadAttachment, LastOpen, DraftRecords, ItemOf;
    var outer, entered := s.stack.elements, Entered(s, tag, options).value;
    if entered.depth == 1 {
      assert forall g | g != Foreigners :: DraftRecords(g, s.draft) + [] == DraftRecords(g, s.draft);
    } else {
      var d := UidRegistered(tag, s.draft).value;
      SameRecords(s.draft, d);
      StartGrows(outer, tag, d, options);
    }
  }

  lemma SameRecords(d: Draft, e: Draft)
    requires e == d.(coreUids := e.coreUids)
    ensures e.tables == d.tables && CurrentImage(e) == CurrentImage(d) && forall g :: DraftRecords(g, e) == DraftRecords(g, d)
  {
  }

  /** Tables do not nest, and neither do rows. */
  lemma RowsAreClosed(s: State, tag: Tag, options: HeaderOptions)
    requires StartTaken(s, tag, options).Some? && Consistent(s.stack.elements, s.draft, options)
    ensures tag.name == Table ==> s.draft.tables.openRow.None?
    ensures tag.name == Row ==> s.draft.tables.openCell.None?
  {
    TablePlaces(s, tag, options);
    hide StartTaken;
    if tag.name == Table {
      NoRowOutside(s.stack.elements, s.draft, options);
    } else if tag.name == Row {
      CellNeedsRow(s.stack.elements, s.draft, options);
    }
  }

  lemma TablePlaces(s: State, tag: Tag, options: HeaderOptions)
    requires StartTaken(s, tag, options).Some?
    ensures tag.name == Table ==> RootOrImageChild(s.stack.elements, s.draft)
    ensures tag.name == Row ==> s.draft.tables.openRow.None?
  {
    hide RangesOf, BadAttachment, TableAdded, RowAdded;
  }

  lemma NoRowOutside(outer: seq<Name>, d: Draft, options: HeaderOptions)
    requires Consistent(outer, d, options) && RootOrImageChild(outer, d)
    ensures d.tables.openRow.None?
  {
    hide ListsOk;
    PushKeeps(outer, Table);
  }

  lemma CellNeedsRow(outer: seq<Name>, d: Draft, options: HeaderOptions)
    requires Consistent(outer, d, options)
    ensures d.tables.openCell.Some? ==> d.tables.openRow.Some?
  {
    hide GoodStack, Linked, ImagesOk, EntriesOk, ProfilesOk, AncillariesOk, ThumbnailsOk, EncodedOk;
  }

  lemma LinkedStart(events: seq<Event>, n: nat, s: Stack, t: Stack, extensions: nat)
    requires n < |events| && events[n].Start? && ExtensionsLinked(events, n, s) && extensions == |Starts(Foreigners, events[..n])|
    requires |t.extensions| == |s.extensions| + 1 && t.extensions[..|s.extensions|] == s.extensions
    requires t.extensions[|s.extensions|] == if events[n].tag.name.Foreign? then Some(extensions) else None
    ensures ExtensionsLinked(events, n + 1, t)
  {
    OpenStartsStep(events, n);
    StartsStep(Foreigners, events, n);
    hide OpenStarts, Starts;
    assert forall m | 0 <= m < |s.extensions| :: t.extensions[m] == t.extensions[..|s.extensions|][m];
  }

  lemma CellStart(events: seq<Event>, n: nat)
    requires n < |events| && events[n].Start? && CellIsLast(events, n)
    requires var open := OpenStarts(events[..n]); open != [] ==> events[open[|open| - 1]].tag.name != Cell
    ensures CellIsLast(events, n + 1)
  {
    assert events[n].tag.name == Cell ==> KindOf(events[n].tag.name) == Some(Grid);
    OpenStartsStep(events, n);
    StartsStep(Grid, events, n);
    hide OpenStarts, Starts, KindOf;
    var before, after := OpenStarts(events[..n]), OpenStarts(events[..n + 1]);
    assert after == before + [n] && forall m | 0 <= m < |before| :: after[m] == before[m];
  }

  lemma RecordsStart(events: seq<Event>, n: nat, s: State, tag: Tag, t: State)
    requires n < |events| && events[n] == Start(tag) && AllRecorded(events, n, s.draft, s.extensions) && StartTells(s, tag, t)
    requires CurrentImage(s.draft) == ImageAt(events, n)
    requires ParentAt(events, n) == if s.stack.elements == [] then None else Some(Top(s.stack.elements))
    ensures AllRecorded(events, n + 1, t.draft, t.extensions)
  {
    hide Recorded, DraftRecords, ImageAt, ParentAt, CurrentImage, LastOpen;
    var after := n + 1;
    forall g
      ensures Recorded(g, events, after, t.draft, t.extensions)
    {
      assert Recorded(g, events, n, s.draft, s.extensions);
      if g == Foreigners {
        ExtensionStarts(s, tag, t);
      }
      RecordStarts(g, events, n, s.draft, s.extensions, t.draft, t.extensions, CurrentImage(s.draft),
                   if s.stack.elements == [] then None else Some(Top(s.stack.elements)));
    }
  }

  lemma ExtensionStarts(s: State, tag: Tag, t: State)
    requires StartTells(s, tag, t)
    ensures Records(Foreigners, t.draft, t.extensions)
         == Records(Foreigners, s.draft, s.extensions)
            + if KindOf(tag.name) == Some(Foreigners)
              then [ItemOf(tag, "", CurrentImage(s.draft), if s.stack.elements == [] then None else Some(Top(s.stack.elements)))] else []
  {
    hide DraftRecords, LastOpen;
  }

  lemma KeptStart(events: seq<Event>, n: nat, s: State, tag: Tag, options: HeaderOptions)
    requires Valued(events, n, s) && Listed(events, n, s) && n < |events| && events[n] == Start(tag) && StartTaken(s, tag, options).Some?
    requires Consistent(s.stack.elements, s.draft, options) && Heights(s.stack, s.depth, |s.extensions.items|)
    ensures Listed(events, n + 1, StartTaken(s, tag, options).value)
  {
    var t, open := StartTaken(s, tag, options).value, OpenStarts(events[..n]);
    RowsAreClosed(s, tag, options);
    StartTellsAll(s, tag, options);
    CurrentIs(events, n, s, options);
    assert |s.extensions.items| == |Starts(Foreigners, events[..n])| by {
      assert Recorded(Foreigners, events, n, s.draft, s.extensions);
    }
    hide Consistent, Heights, StartTaken, Recorded, LastOpen, DraftRecords, EntriesFollow, BlocksFollow, CollectorIsOpen;
    if open != [] {
      LastName(events, open);
    }
    assert s.stack.elements == [] ==> ParentAt(events, n) == None;
    RecordsStart(events, n, s, tag, t);
    hide AllRecorded, NamesAt;
    LinkedStart(events, n, s.stack, t.stack, |s.extensions.items|);
    CellStart(events, n);
  }

  lemma LinkedEnd(events: seq<Event>, n: nat, s: Stack, t: Stack)
    requires n < |events| && events[n].End? && ExtensionsLinked(events, n, s) && s.extensions != []
    requires t.extensions == s.extensions[..|s.extensions| - 1]
    ensures ExtensionsLinked(events, n + 1, t)
  {
    OpenStartsStep(events, n);
    StartsStep(Foreigners, events, n);
    assert Starts(Foreigners, events[..n]) + [] == Starts(Foreigners, events[..n]);
    hide OpenStarts, Starts, KindOf;
    var before, after := OpenStarts(events[..n]), OpenStarts(events[..n + 1]);
    assert before != [] && after == before[..|before| - 1] && forall m | 0 <= m < |after| :: after[m] == before[m];
  }

  lemma CellEnd(events: seq<Event>, n: nat)
    requires n < |events| && events[n].End? && CellIsLast(events, n)
    ensures CellIsLast(events, n + 1)
  {
    OpenStartsStep(events, n);
    StartsStep(Grid, events, n);
    hide OpenStarts, Starts;
  }

  /** End tags leave all records as they were. */
  lemma EndKeeps(n: Name, d: Draft, options: HeaderOptions)
    requires ElementEnded(n, d, options).Some? && LastOpen(d.tables)
    ensures var e := ElementEnded(n, d, options).value;
            LastOpen(e.tables) && forall g :: DraftRecords(g, e) == DraftRecords(g, d)
  {
    hide EndsBlock, TableItems, StructureItems;
  }

  lemma KeptEnd(events: seq<Event>, n: nat, s: State, name: Name, options: HeaderOptions)
    requires n < |events| && Listed(events, n, s) && events[n] == End(name) && EndTaken(s, options).Some?
    ensures Listed(events, n + 1, EndTaken(s, options).value)
  {
    var t := EndTaken(s, options).value;
    EndKeeps(Top(s.stack.elements), s.draft, options);
    hide ElementEnded, LastOpen, DraftRecords;
    LinkedEnd(events, n, s.stack, t.stack);
    CellEnd(events, n);
    hide ExtensionsLinked, CellIsLast, Recorded;
    var after := n + 1;
    forall g
      ensures Recorded(g, events, after, t.draft, t.extensions)
    {
      assert Recorded(g, events, n, s.draft, s.extensions);
      RecordsStay(g, events, n, s.draft, s.extensions, t.draft, t.extensions);
    }
  }

  // ---------------------------------------------------------------- text

  /** Where text goes, among the lists. */
  predicate TextTells(s: State, text: string, t: State) {
    && t.stack == s.stack && t.depth == s.depth && LastOpen(t.draft.tables)
    && (forall g | g != Grid && g != Foreigners :: DraftRecords(g, t.draft) == DraftRecords(g, s.draft))
    && (if NoneOpen(s.draft.encoded) && s.draft.tables.openCell.Some? then
          var items := DraftRecords(Grid, s.draft);
          items != [] && DraftRecords(Grid, t.draft) == items[|items| - 1 := WithText(items[|items| - 1], text)]
        else DraftRecords(Grid, t.draft) == DraftRecords(Grid, s.draft))
    && (if NoneOpen(s.draft.encoded) && s.draft.tables.openCell.None? && OpenExtension(s.stack).Some? then
          var k := OpenExtension(s.stack).value;
          && k < |s.extensions.items|
          && ExtensionItems(t.extensions.items) == ExtensionItems(s.extensions.items)[k := WithText(ExtensionItems(s.extensions.items)[k], text)]
        else t.extensions.items == s.extensions.items)
  }

  lemma BlockTextTells(s: State, text: string, blank: bool, options: HeaderOptions)
    requires text != "" && !NoneOpen(s.draft.encoded) && TextTaken(s, text, blank, options).Some? && LastOpen(s.draft.tables)
    ensures TextTells(s, text, TextTaken(s, text, blank, options).value)
  {
    hide E.Feed, LastOpen, TableItems, StructureItems;
  }

  lemma CellTextTells(s: State, text: string, blank: bool, options: HeaderOptions)
    requires text != "" && NoneOpen(s.draft.encoded) && s.draft.tables.openCell.Some?
    requires TextTaken(s, text, blank, options).Some? && LastOpen(s.draft.tables)
    ensures TextTells(s, text, TextTaken(s, text, blank, options).value)
  {
    hide E.Feed, LastOpen, TableItems, StructureItems, TextAllowed, WithCellText, OpenCellOf, TablesOpen;
    CellTextItems(s.draft.tables, text);
  }

  lemma OtherTextTells(s: State, text: string, blank: bool, options: HeaderOptions)
    requires text != "" && NoneOpen(s.draft.encoded) && s.draft.tables.openCell.None?
    requires TextTaken(s, text, blank, options).Some? && LastOpen(s.draft.tables)
    ensures TextTells(s, text, TextTaken(s, text, blank, options).value)
  {
    hide E.Feed, LastOpen, TableItems, StructureItems, TextAllowed, TablesOpen;
    var t := TextTaken(s, text, blank, options).value;
    assert EntryItems(t.draft.metadata.items) == EntryItems(s.draft.metadata.items);
    if OpenExtension(s.stack).Some? {
      var k := OpenExtension(s.stack).value;
      assert ExtensionItems(t.extensions.items) == ExtensionItems(s.extensions.items)[k := WithText(ExtensionItems(s.extensions.items)[k], text)];
    }
  }

  /** Text is a cell's or an extension's exactly if that is the innermost element. */
  lemma WhoseText(events: seq<Event>, n: nat, s: State, options: HeaderOptions)
    requires Valued(events, n, s) && Listed(events, n, s) && Consistent(s.stack.elements, s.draft, options)
    requires Heights(s.stack, s.depth, |s.extensions.items|)
    ensures var p := Innermost(events, n);
            && (p.Some? ==> p.value < |events| && events[p.value].Start?)
            && (NoneOpen(s.draft.encoded) && s.draft.tables.openCell.Some? <==> p.Some? && events[p.value].tag.name == Cell)
            && (NoneOpen(s.draft.encoded) && s.draft.tables.openCell.None? && OpenExtension(s.stack).Some?
                <==> p.Some? && events[p.value].tag.name.Foreign?)
  {
    var open, elements := OpenStarts(events[..n]), s.stack.elements;
    CellIsOpen(elements, s.draft, options);
    ExtensionOnTop(s.stack, s.depth, |s.extensions.items|);
    hide Consistent, Heights, AllRecorded, LastOpen, EntriesFollow, CollectorIsOpen, ExtensionsLinked, OpenStarts, OpenExtension;
    HasCell(events, open);
    if open != [] {
      LastName(events, open);
    }
  }

  lemma GridText(events: seq<Event>, n: nat, s: State, text: string, t: State)
    requires n < |events| && events[n].Text? && events[n].text == text != ""
    requires Recorded(Grid, events, n, s.draft, s.extensions) && TextTells(s, text, t) && CellIsLast(events, n)
    requires var p := Innermost(events, n);
             && (p.Some? ==> p.value < |events| && events[p.value].Start?)
             && (NoneOpen(s.draft.encoded) && s.draft.tables.openCell.Some? <==> p.Some? && events[p.value].tag.name == Cell)
    ensures Recorded(Grid, events, n + 1, t.draft, t.extensions)
  {
    var starts := Starts(Grid, events[..n]);
    hide Recorded, TextTells;
    if NoneOpen(s.draft.encoded) && s.draft.tables.openCell.Some? {
      assert starts != [] && Innermost(events, n) == Some(starts[|starts| - 1]);
      assert |Records(Grid, s.draft, s.extensions)| == |starts| by {
        RecordCount(Grid, events, n, s.draft, s.extensions);
      }
      GridTells(s, text, t);
      hide Starts, Innermost, Records, CellIsLast;
      RecordTakesText(Grid, events, n, s.draft, s.extensions, t.draft, t.extensions, |starts| - 1);
    } else {
      GridTells(s, text, t);
      hide Starts, Innermost, Records, CellIsLast;
      RecordsStay(Grid, events, n, s.draft, s.extensions, t.draft, t.extensions);
    }
  }

  lemma RecordCount(g: Kind, events: seq<Event>, n: nat, d: Draft, x: Extensions)
    requires n <= |events| && Recorded(g, events, n, d, x)
    ensures |Records(g, d, x)| == |Starts(g, events[..n])|
  {
  }

  lemma GridTells(s: State, text: string, t: State)
    requires TextTells(s, text, t)
    ensures var x, y := Records(Grid, s.draft, s.extensions), Records(Grid, t.draft, t.extensions);
            if NoneOpen(s.draft.encoded) && s.draft.tables.openCell.Some? then x != [] && y == x[|x| - 1 := WithText(x[|x| - 1], text)]
            else y == x
  {
    hide DraftRecords, WithText, NoneOpen;
  }

  lemma ExtensionTells(s: State, text: string, t: State)
    requires TextTells(s, text, t)
    ensures var x, y := Records(Foreigners, s.draft, s.extensions), Records(Foreigners, t.draft, t.extensions);
            if NoneOpen(s.draft.encoded) && s.draft.tables.openCell.None? && OpenExtension(s.stack).Some? then
              var k := OpenExtension(s.stack).value; k < |x| && y == x[k := WithText(x[k], text)]
            else y == x
  {
    hide DraftRecords, WithText, NoneOpen, OpenExtension;
  }

  lemma OpenExtensionIs(events: seq<Event>, n: nat, s: Stack)
    requires n <= |events| && ExtensionsLinked(events, n, s) && OpenExtension(s).Some?
    ensures var starts := Starts(Foreigners, events[..n]);
            OpenExtension(s).value < |starts| && Innermost(events, n) == Some(starts[OpenExtension(s).value])
  {
  }

  lemma ExtensionText(events: seq<Event>, n: nat, s: State, text: string, t: State)
    requires n < |events| && events[n].Text? && events[n].text == text != ""
    requires Recorded(Foreigners, events, n, s.draft, s.extensions) && TextTells(s, text, t) && ExtensionsLinked(events, n, s.stack)
    requires var p := Innermost(events, n);
             && (p.Some? ==> p.value < |events| && events[p.value].Start?)
             && (NoneOpen(s.draft.encoded) && s.draft.tables.openCell.None? && OpenExtension(s.stack).Some?
                 <==> p.Some? && events[p.value].tag.name.Foreign?)
    ensures Recorded(Foreigners, events, n + 1, t.draft, t.extensions)
  {
    hide Recorded, TextTells, Starts, Innermost, Records, OpenExtension;
    ExtensionTells(s, text, t);
    if NoneOpen(s.draft.encoded) && s.draft.tables.openCell.None? && OpenExtension(s.stack).Some? {
      OpenExtensionIs(events, n, s.stack);
      hide ExtensionsLinked;
      RecordTakesText(Foreigners, events, n, s.draft, s.extensions, t.draft, t.extensions, OpenExtension(s.stack).value);
    } else {
      hide ExtensionsLinked;
      RecordsStay(Foreigners, events, n, s.draft, s.extensions, t.draft, t.extensions);
    }
  }

  lemma KeptText(events: seq<Event>, n: nat, s: State, text: string, blank: bool, options: HeaderOptions)
    requires n < |events| && Valued(events, n, s) && Listed(events, n, s) && events[n] == Text(text, blank)
    requires Consistent(s.stack.elements, s.draft, options) && Heights(s.stack, s.depth, |s.extensions.items|)
    requires TextTaken(s, text, blank, options).Some?
    ensures Listed(events, n + 1, TextTaken(s, text, blank, options).value)
  {
    var t := TextTaken(s, text, blank, options).value;
    TextStands(events, n, s.stack);
    if text == "" {
      StillRecorded(events, n, s);
    } else {
      WhoseText(events, n, s, options);
      if !NoneOpen(s.draft.encoded) {
        BlockTextTells(s, text, blank, options);
      } else if s.draft.tables.openCell.Some? {
        CellTextTells(s, text, blank, options);
      } else {
        OtherTextTells(s, text, blank, options);
      }
      hide TextTaken, Consistent, Heights, Valued, ExtensionsLinked, CellIsLast, LastOpen, Innermost, NoneOpen, OpenExtension;
      TextRecorded(events, n, s, text, t);
    }
  }

  lemma TextRecorded(events: seq<Event>, n: nat, s: State, text: string, t: State)
    requires n < |events| && events[n].Text? && events[n].text == text != ""
    requires Listed(events, n, s) && TextTells(s, text, t)
    requires var p := Innermost(events, n);
             && (p.Some? ==> p.value < |events| && events[p.value].Start?)
             && (NoneOpen(s.draft.encoded) && s.draft.tables.openCell.Some? <==> p.Some? && events[p.value].tag.name == Cell)
             && (NoneOpen(s.draft.encoded) && s.draft.tables.openCell.None? && OpenExtension(s.stack).Some?
                 <==> p.Some? && events[p.value].tag.name.Foreign?)
    ensures AllRecorded(events, n + 1, t.draft, t.extensions)
  {
    hide Recorded, DraftRecords, LastOpen, ExtensionsLinked, CellIsLast, Innermost, NoneOpen, OpenExtension;
    var after := n + 1;
    forall g
      ensures Recorded(g, events, after, t.draft, t.extensions)
    {
      assert Recorded(g, events, n, s.draft, s.extensions);
      if g == Grid {
        GridText(events, n, s, text, t);
      } else if g == Foreigners {
        ExtensionText(events, n, s, text, t);
      } else {
        RecordsStay(g, events, n, s.draft, s.extensions, t.draft, t.extensions);
      }
    }
  }

  lemma StillRecorded(events: seq<Event>, n: nat, s: State)
    requires n < |events| && events[n].Text? && events[n].text == "" && AllRecorded(events, n, s.draft, s.extensions)
    ensures AllRecorded(events, n + 1, s.draft, s.extensions)
  {
    hide Recorded;
    var after := n + 1;
    forall g
      ensures Recorded(g, events, after, s.draft, s.extensions)
    {
      assert Recorded(g, events, n, s.draft, s.extensions);
      RecordsStay(g, events, n, s.draft, s.extensions, s.draft, s.extensions);
    }
  }

  /** White space outside the root. */
  lemma KeptBlank(events: seq<Event>, n: nat, s: State)
    requires n < |events| && Valued(events, n, s) && Listed(events, n, s) && events[n].Text? && s.stack.elements == []
    ensures Listed(events, n + 1, s)
  {
    TextStands(events, n, s.stack);
    assert Innermost(events, n).None?;
    hide Valued, ExtensionsLinked, CellIsLast, LastOpen, Recorded, Innermost;
    var after := n + 1;
    forall g
      ensures Recorded(g, events, after, s.draft, s.extensions)
    {
      assert Recorded(g, events, n, s.draft, s.extensions);
      RecordsStay(g, events, n, s.draft, s.extensions, s.draft, s.extensions);
    }
  }

  lemma TextStands(events: seq<Event>, n: nat, s: Stack)
    requires n < |events| && events[n].Text?
    ensures ExtensionsLinked(events, n, s) ==> ExtensionsLinked(events, n + 1, s)
    ensures CellIsLast(events, n) ==> CellIsLast(events, n + 1)
  {
    var after := n + 1;
    assert OpenStarts(events[..after]) == OpenStarts(events[..n]) by {
      OpenStartsStep(events, n);
    }
    StartsStep(Foreigners, events, n);
    StartsStep(Grid, events, n);
    assert forall g :: Starts(g, events[..n]) + [] == Starts(g, events[..n]);
    hide OpenStarts, Starts;
  }

  // ---------------------------------------------------------------- the document

  /**
   Every list of the document holds one record for each start tag of its kind, in order: tables with
   their rows and these with their cells, structures with their fields, blocks with the locations of
   their tags, entries with their attributes, image and scope, cells and extension elements with the
   text directly inside them.
   */
  predicate RecordsOf(events: seq<Event>, doc: Document) {
    AllRecorded(events, |events|, doc.draft, Extensions(doc.extensions, 0, 0))
  }

  lemma RecordsAtTheEnd(events: seq<Event>, s: State, doc: Document)
    requires Listed(events, |events|, s) && doc.extensions == s.extensions.items
    requires doc.draft == s.draft.(tables := Resolved(s.draft.tables))
    ensures RecordsOf(events, doc)
  {
    var x := Extensions(doc.extensions, 0, 0);
    StructureDoesNotMatter(s.draft.tables.items, Resolved(s.draft.tables).items);
    hide TableItems, StructureAfter;
    assert forall g :: Records(g, doc.draft, x) == Records(g, s.draft, s.extensions);
    hide Records, ItemAt, Starts;
    forall g
      ensures Recorded(g, events, |events|, doc.draft, x)
    {
      assert Recorded(g, events, |events|, s.draft, s.extensions);
    }
  }
}
