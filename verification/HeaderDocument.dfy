/** From a finished draft to a document: references are resolved and the lists checked against each other. */
module HeaderDocument {
  import opened Base
  import opened HeaderStack
  import opened Locations
  import opened HeaderLists
  import opened HeaderDraft

  // ---------------------------------------------------------------- metadata bindings

  datatype MetadataBinding = MetadataBinding(index: nat, scope: Scope, image: Option<nat>, byReference: bool)

  predicate MetadataBindingOk(b: MetadataBinding, x: Entries, images: nat) {
    && b.index < |x.items|
    && b.scope != StandaloneScope
    && (b.scope == ImageScope ==> b.image.Some?)
    && (b.scope == UnitScope ==> x.items[b.index].isProperty)
    && InRange(b.image, images)
  }

  /** The entry an event is about; a reference to something that is no entry is passed over. */
  function Target(e: MetadataEvent, uids: map<string, nat>): Option<nat> {
    if e.Direct? then Some(e.index) else if e.reference in uids then Some(uids[e.reference]) else None
  }

  /** Why an event is refused: a Structure outside a Table, or a FITS keyword bound to the whole unit. */
  predicate Refused(e: MetadataEvent, x: Entries, structureUids: map<string, nat>) {
    || (e.ByReference? && e.reference in structureUids)
    || (Target(e, x.uids).Some? && Target(e, x.uids).value < |x.items| && e.scope == UnitScope
        && !x.items[Target(e, x.uids).value].isProperty)
  }

  /** The bindings that the events ask for, in order. */
  function BindingsOf(events: seq<MetadataEvent>, uids: map<string, nat>): seq<MetadataBinding> {
    if events == [] then []
    else
      var e := events[|events| - 1];
      BindingsOf(events[..|events| - 1], uids)
      + if Target(e, uids).Some? then [MetadataBinding(Target(e, uids).value, e.scope, e.image, e.ByReference?)] else []
  }

  method BindMetadata(x: Entries, structureUids: map<string, nat>, images: nat) returns (r: Result<seq<MetadataBinding>>)
    requires EntriesOk(x, images)
    ensures r.Err? ==> r.error == InvalidXisf
    ensures r.Ok? <==> forall k | 0 <= k < |x.events| :: !Refused(x.events[k], x, structureUids)
    ensures r.Ok? ==> r.value == BindingsOf(x.events, x.uids)
    ensures r.Ok? ==> forall k | 0 <= k < |r.value| :: MetadataBindingOk(r.value[k], x, images)
  {
    var bindings: seq<MetadataBinding> := [];
    for i := 0 to |x.events|
      invariant bindings == BindingsOf(x.events[..i], x.uids)
      invariant forall k | 0 <= k < i :: !Refused(x.events[k], x, structureUids)
      invariant forall k | 0 <= k < |bindings| :: MetadataBindingOk(bindings[k], x, images)
    {
      var e := x.events[i];
      assert x.events[..i + 1][..i] == x.events[..i];
      assert MetadataEventOk(e, |x.items|, images);
      if e.ByReference? && e.reference in structureUids {
        return Err(InvalidXisf);
      }
      var target := Target(e, x.uids);
      if target.Some? {
        if target.value >= |x.items| {
          return Err(InternalError);
        }
        if e.scope == UnitScope && !x.items[target.value].isProperty {
          return Err(InvalidXisf);
        }
        bindings := bindings + [MetadataBinding(target.value, e.scope, e.image, e.ByReference?)];
      }
    }
    assert x.events[..|x.events|] == x.events;
    return Ok(bindings);
  }

  // ---------------------------------------------------------------- bindings of objects to images

  datatype Binding = Binding(item: nat, image: nat, byReference: bool)

  predicate BindingOk(b: Binding, items: nat, images: nat) {
    b.item < items && b.image < images
  }

  function DirectBindings(events: seq<BindingEvent>): seq<Binding> {
    seq(|events|, k requires 0 <= k < |events| => Binding(events[k].item, events[k].image, false))
  }

  /** The references from inside an image to an object with one of these uids, in order. */
  function ReferenceBindings(events: seq<MetadataEvent>, uids: map<string, nat>): seq<Binding> {
    if events == [] then []
    else
      var e := events[|events| - 1];
      ReferenceBindings(events[..|events| - 1], uids)
      + if e.ByReference? && e.scope == ImageScope && e.image.Some? && e.reference in uids
        then [Binding(uids[e.reference], e.image.value, true)] else []
  }

  /** A reference to one of these objects from outside an image. */
  predicate Misplaced(e: MetadataEvent, uids: map<string, nat>) {
    e.ByReference? && e.reference in uids && (e.scope != ImageScope || e.image.None?)
  }

  /** Whether the bindings keep to the limit, which is only asked for references. */
  predicate BindsWithin(direct: seq<BindingEvent>, uids: map<string, nat>, metadata: seq<MetadataEvent>, limit: U64, imagesOnly: bool) {
    && (imagesOnly ==> forall k | 0 <= k < |metadata| :: !Misplaced(metadata[k], uids))
    && (ReferenceBindings(metadata, uids) != [] ==> |direct| + |ReferenceBindings(metadata, uids)| <= limit)
  }

  lemma {:induction false} FirstReferences(metadata: seq<MetadataEvent>, uids: map<string, nat>, k: nat)
    requires k <= |metadata|
    ensures |ReferenceBindings(metadata[..k], uids)| <= |ReferenceBindings(metadata, uids)|
    decreases |metadata|
  {
    if k == |metadata| {
      assert metadata[..k] == metadata;
    } else {
      var front := metadata[..|metadata| - 1];
      FirstReferences(front, uids, k);
      assert front[..k] == metadata[..k];
    }
  }

  /**
   Ancillary objects, ICC profiles, thumbnails and tables are bound alike; `imagesOnly` is set for
   tables, which nothing but an Image may refer to.
   */
  method BindObjects(
    direct: seq<BindingEvent>, uids: map<string, nat>, metadata: seq<MetadataEvent>, limit: U64, imagesOnly: bool,
    items: nat, images: nat, ghost x: Entries) returns (r: Result<seq<Binding>>)
    requires EventsOk(direct, items, images) && UidsOk(uids, items) && EntriesOk(x, images) && metadata == x.events
    ensures r.Err? ==> r.error == ResourceLimit || (imagesOnly && r.error == InvalidXisf)
    ensures r.Ok? <==> BindsWithin(direct, uids, metadata, limit, imagesOnly)
    ensures r.Ok? ==> r.value == DirectBindings(direct) + ReferenceBindings(metadata, uids)
    ensures r.Ok? ==> forall k | 0 <= k < |r.value| :: BindingOk(r.value[k], items, images)
  {
    var bindings: seq<Binding> := [];
    for i := 0 to |direct|
      invariant bindings == DirectBindings(direct[..i])
      invariant forall k | 0 <= k < |bindings| :: BindingOk(bindings[k], items, images)
    {
      if direct[i].item >= items || direct[i].image >= images {
        return Err(InternalError);
      }
      bindings := bindings + [Binding(direct[i].item, direct[i].image, false)];
    }
    assert direct[..|direct|] == direct && ReferenceBindings(metadata[..0], uids) == [];
    for i := 0 to |metadata|
      invariant bindings == DirectBindings(direct) + ReferenceBindings(metadata[..i], uids)
      invariant BindsWithin(direct, uids, metadata[..i], limit, imagesOnly)
      invariant forall k | 0 <= k < |bindings| :: BindingOk(bindings[k], items, images)
    {
      var e := metadata[i];
      assert metadata[..i + 1][..i] == metadata[..i];
      assert MetadataEventOk(e, |x.items|, images);
      var found := e.ByReference? && e.reference in uids;
      FirstReferences(metadata, uids, i + 1);
      if found && imagesOnly && (e.scope != ImageScope || e.image.None?) {
        assert Misplaced(metadata[i], uids);
        return Err(InvalidXisf);
      }
      if found && e.scope == ImageScope && e.image.Some? {
        if |bindings| >= limit {
          return Err(ResourceLimit);
        }
        bindings := bindings + [Binding(uids[e.reference], e.image.value, true)];
      }
    }
    assert metadata[..|metadata|] == metadata;
    return Ok(bindings);
  }

  // ---------------------------------------------------------------- tables and their structures

  datatype Category = ScalarOrComplex | StringKind | TimePoint | Vector | Matrix | UnknownKind

  /** `classify_property_type`, and the checks of a single value. */
  datatype ValueRules = ValueRules(
    category: string -> Category,
    isScalar: (string, string) -> bool,
    isTimePoint: string -> bool)

  /** A cell gives its value in the form that the type of its field asks for. */
  predicate CellFits(rules: ValueRules, kind: string, cell: CellRec) {
    var noExtents := cell.length.None? && cell.rows.None? && cell.columns.None?;
    match rules.category(kind)
    case ScalarOrComplex => cell.form == AttributeValue && noExtents && rules.isScalar(kind, cell.text)
    case StringKind => noExtents
    case TimePoint => cell.form == AttributeValue && noExtents && rules.isTimePoint(cell.text)
    case Vector => cell.form == DataBlock && cell.length.Some? && cell.rows.None? && cell.columns.None?
    case Matrix => cell.form == DataBlock && cell.length.None? && cell.rows.Some? && cell.columns.Some?
    case UnknownKind => true
  }

  predicate RowFits(rules: ValueRules, fields: seq<FieldRec>, row: RowRec) {
    |row.cells| == |fields| && forall c | 0 <= c < |fields| :: CellFits(rules, fields[c].kind, row.cells[c])
  }

  /** A table with one structure, the declared numbers of rows and columns, and in every row one fitting cell for each field. */
  predicate TableComplete(t: TableRec, structures: seq<StructureRec>, rules: ValueRules) {
    && t.structure.Some? && t.structure.value < |structures|
    && var fields := structures[t.structure.value].fields;
       && (t.rows.Some? ==> t.rows.value as int == |t.body|)
       && (t.columns.Some? ==> t.columns.value as int == |fields|)
       && forall k | 0 <= k < |t.body| :: RowFits(rules, fields, t.body[k])
  }

  /** The structure of a table after the first references: its own, or the one that the last of them gave it. */
  function StructureAfter(x: Tables, t: nat, k: nat): Option<nat>
    requires t < |x.items| && k <= |x.references|
  {
    if k == 0 then x.items[t].structure
    else if x.references[k - 1].table == t && x.references[k - 1].reference in x.standaloneUids then
      Some(x.standaloneUids[x.references[k - 1].reference])
    else StructureAfter(x, t, k - 1)
  }

  /** A reference finds its table without a structure and names a standalone one. */
  predicate Fits(x: Tables, k: nat)
    requires k < |x.references|
  {
    var ref := x.references[k];
    ref.table < |x.items| && StructureAfter(x, ref.table, k).None? && ref.reference in x.standaloneUids
  }

  ghost predicate ResolvedAt(x: Tables, now: TableRec, count: nat, t: nat, k: nat)
    requires t < |x.items| && k <= |x.references|
  {
    && now == x.items[t].(structure := StructureAfter(x, t, k))
    && InRange(now.structure, |x.structures|) && (count > 0 ==> now.structure.Some?)
  }

  /** Table References give a table the standalone structure it names, if it has none. */
  method ResolveStructures(x: Tables, images: nat) returns (r: Result<Tables>)
    requires TablesOk(x, images)
    ensures r.Err? ==> r.error == InvalidXisf
    ensures r.Ok? <==> OneStructureEach(x)
    ensures r.Ok? ==> |r.value.items| == |x.items| && TableListsOk(r.value, images) && r.value == x.(items := r.value.items)
    ensures r.Ok? ==> forall t | 0 <= t < |x.items| ::
                        r.value.items[t] == x.items[t].(structure := StructureAfter(x, t, |x.references|))
  {
    hide OneStructureEach;
    FitsIsOneStructureEach(x);
    var items := x.items;
    var counts: seq<nat> := seq(|items|, _ => 0);
    for k := 0 to |x.references|
      invariant |items| == |x.items| == |counts|
      invariant forall t | 0 <= t < |x.items| :: ResolvedAt(x, items[t], counts[t], t, k)
      invariant forall j | 0 <= j < k :: Fits(x, j)
    {
      var ref := x.references[k];
      if ref.table >= |items| {
        return Err(InternalError);
      }
      assert ResolvedAt(x, items[ref.table], counts[ref.table], ref.table, k);
      counts := counts[ref.table := counts[ref.table] + 1];
      if counts[ref.table] > 1 || items[ref.table].structure.Some? || ref.reference !in x.standaloneUids {
        assert !Fits(x, k);
        return Err(InvalidXisf);
      }
      assert Fits(x, k);
      items := items[ref.table := items[ref.table].(structure := Some(x.standaloneUids[ref.reference]))];
    }
    assert forall t | 0 <= t < |x.items| :: ResolvedAt(x, items[t], counts[t], t, |x.references|);
    return Ok(x.(items := items));
  }

  /** No table has two references or one beside an inline Structure, and all of them name standalone structures. */
  predicate OneStructureEach(x: Tables) {
    && (forall k | 0 <= k < |x.references| ::
          && x.references[k].table < |x.items| && x.items[x.references[k].table].structure.None?
          && x.references[k].reference in x.standaloneUids)
    && forall i, j | 0 <= i < j < |x.references| :: x.references[i].table != x.references[j].table
  }

  lemma FitsIsOneStructureEach(x: Tables)
    ensures (forall k | 0 <= k < |x.references| :: Fits(x, k)) <==> OneStructureEach(x)
  {
    hide StructureAfter;
    if forall k | 0 <= k < |x.references| :: x.references[k].table < |x.items| && x.references[k].reference in x.standaloneUids {
      forall k: nat | k < |x.references|
        ensures Fits(x, k) <==> Untouched(x, x.references[k].table, k)
      {
        UntouchedStructure(x, x.references[k].table, k);
      }
      if forall k: nat | k < |x.references| :: Fits(x, k) {
        forall i, j | 0 <= i < j < |x.references| ensures x.references[i].table != x.references[j].table {
          assert Fits(x, j);
        }
        assert forall k | 0 <= k < |x.references| :: Fits(x, k) ==> x.items[x.references[k].table].structure.None?;
      }
    } else {
      var k: nat :| k < |x.references| && !(x.references[k].table < |x.items| && x.references[k].reference in x.standaloneUids);
      assert !Fits(x, k);
    }
  }

  predicate Untouched(x: Tables, t: nat, k: nat)
    requires t < |x.items| && k <= |x.references|
  {
    x.items[t].structure.None? && forall j | 0 <= j < k :: x.references[j].table != t
  }

  lemma {:induction false} UntouchedStructure(x: Tables, t: nat, k: nat)
    requires t < |x.items| && k <= |x.references|
    ensures (forall j | 0 <= j < k :: x.references[j].reference in x.standaloneUids) ==>
              (StructureAfter(x, t, k).None? <==> Untouched(x, t, k))
  {
    if k > 0 {
      UntouchedStructure(x, t, k - 1);
    }
  }

  method CheckRow(rules: ValueRules, fields: seq<FieldRec>, row: RowRec) returns (ok: bool)
    ensures ok <==> RowFits(rules, fields, row)
  {
    if |row.cells| != |fields| {
      return false;
    }
    for c := 0 to |row.cells|
      invariant forall j | 0 <= j < c :: CellFits(rules, fields[j].kind, row.cells[j])
    {
      var kind, cell := fields[c].kind, row.cells[c];
      var hasExtents := cell.length.Some? || cell.rows.Some? || cell.columns.Some?;
      match rules.category(kind) {
      case ScalarOrComplex =>
        if cell.form != AttributeValue || hasExtents || !rules.isScalar(kind, cell.text) {
          return false;
        }
      case StringKind =>
        if hasExtents {
          return false;
        }
      case TimePoint =>
        if cell.form != AttributeValue || hasExtents || !rules.isTimePoint(cell.text) {
          return false;
        }
      case Vector =>
        if cell.form != DataBlock || cell.length.None? || cell.rows.Some? || cell.columns.Some? {
          return false;
        }
      case Matrix =>
        if cell.form != DataBlock || cell.length.Some? || cell.rows.None? || cell.columns.None? {
          return false;
        }
      case UnknownKind =>
      }
    }
    return true;
  }

  method CheckTables(x: Tables, images: nat, rules: ValueRules) returns (ok: bool)
    requires TableListsOk(x, images)
    ensures ok <==> forall t | 0 <= t < |x.items| :: TableComplete(x.items[t], x.structures, rules)
  {
    hide RowFits;
    for t := 0 to |x.items|
      invariant forall j | 0 <= j < t :: TableComplete(x.items[j], x.structures, rules)
    {
      var table := x.items[t];
      if table.structure.None? || table.structure.value >= |x.structures| {
        return false;
      }
      var fields := x.structures[table.structure.value].fields;
      if (table.rows.Some? && table.rows.value != |table.body|) || (table.columns.Some? && table.columns.value != |fields|) {
        return false;
      }
      for k := 0 to |table.body|
        invariant forall j | 0 <= j < k :: RowFits(rules, fields, table.body[j])
      {
        var ok := CheckRow(rules, fields, table.body[k]);
        if !ok {
          return false;
        }
      }
    }
    return true;
  }

  // ---------------------------------------------------------------- identifiers and references

  /** A property identifier, and the image it is associated with; None is the whole unit. */
  datatype Named = Named(image: Option<nat>, name: string)

  predicate NoDuplicates<T(==)>(s: seq<T>) {
    forall i, j | 0 <= i < j < |s| :: s[i] != s[j]
  }

  /** The identifiers taken so far, one set for the unit and one for every image. */
  datatype Names = Names(unit: set<string>, byImage: seq<set<string>>)

  ghost predicate Holds(known: Names, list: seq<Named>) {
    && (forall name :: name in known.unit <==> Named(None, name) in list)
    && forall i, name | 0 <= i < |known.byImage| :: name in known.byImage[i] <==> Named(Some(i), name) in list
  }

  /** Takes an identifier, unless it is taken. */
  method Take(known: Names, n: Named, ghost list: seq<Named>) returns (taken: bool, after: Names)
    requires Holds(known, list) && InRange(n.image, |known.byImage|)
    ensures taken <==> n in list
    ensures Holds(after, list + [n]) && |after.byImage| == |known.byImage|
  {
    if n.image.None? {
      taken := n.name in known.unit;
      after := known.(unit := known.unit + {n.name});
    } else {
      var i := n.image.value;
      taken := n.name in known.byImage[i];
      after := known.(byImage := known.byImage[i := known.byImage[i] + {n.name}]);
    }
    assert n in list + [n];
  }

  /** The loop over the bindings of properties. */
  method CheckPropertyNames(metadata: seq<MetadataBinding>, x: Entries, images: nat) returns (r: Result<Names>)
    requires forall k | 0 <= k < |metadata| :: MetadataBindingOk(metadata[k], x, images)
    ensures IndexesEntries(metadata, x)
    ensures r.Err? ==> r.error == InvalidXisf && !NoDuplicates(PropertyNames(metadata, x))
    ensures r.Ok? ==> |r.value.byImage| == images && Holds(r.value, PropertyNames(metadata, x)) && NoDuplicates(PropertyNames(metadata, x))
  {
    hide Holds, NoDuplicates;
    IndicesInRange(metadata, x, images);
    var known := Names({}, seq(images, _ => {}));
    ghost var list: seq<Named> := [];
    NothingTaken(known);
    for k := 0 to |metadata|
      invariant list == PropertyNames(metadata[..k], x)
      invariant |known.byImage| == images && Holds(known, list) && NoDuplicates(list)
    {
      var b := metadata[k];
      assert metadata[..k + 1][..k] == metadata[..k] && MetadataBindingOk(b, x, images);
      var entry := x.items[b.index];
      if entry.isProperty {
        if b.scope != UnitScope && (b.image.None? || b.image.value >= images) {
          return Err(InternalError);
        }
        var n := Named(if b.scope == UnitScope then None else b.image, entry.name);
        var taken;
        taken, known := Take(known, n, list);
        Appended(list, n);
        list := list + [n];
        if taken {
          PropertyNamesSplit(metadata, x, k + 1);
          FrontHasDuplicate(list, PropertyNames(metadata, x));
          return Err(InvalidXisf);
        }
      }
    }
    assert metadata[..|metadata|] == metadata;
    return Ok(known);
  }

  /** No identifier comes twice for the unit or for one image: properties first, then the tables behind them. */
  method CheckNames(metadata: seq<MetadataBinding>, x: Entries, bindings: seq<Binding>, tables: Tables, images: nat)
    returns (r: Result<bool>)
    requires forall k | 0 <= k < |metadata| :: MetadataBindingOk(metadata[k], x, images)
    requires forall k | 0 <= k < |bindings| :: BindingOk(bindings[k], |tables.items|, images)
    ensures r.Err? ==> r.error == InvalidXisf
    ensures IndexesEntries(metadata, x) && IndexesTables(bindings, tables)
    ensures r.Ok? <==> NoDuplicates(PropertyNames(metadata, x) + TableNames(bindings, tables))
  {
    hide Holds, NoDuplicates, MetadataBindingOk;
    assert forall k | 0 <= k < |bindings| :: BindingOk(bindings[k], |tables.items|, images) ==> bindings[k].item < |tables.items|;
    var taken := CheckPropertyNames(metadata, x, images);
    ghost var properties := PropertyNames(metadata, x);
    hide PropertyNames;
    if taken.Err? {
      FrontHasDuplicate(properties, properties + TableNames(bindings, tables));
      return Err(taken.error);
    }
    var known := taken.value;
    ghost var list := properties;
    for k := 0 to |bindings|
      invariant list == properties + TableNames(bindings, tables)[..k]
      invariant |known.byImage| == images && Holds(known, list) && NoDuplicates(list)
    {
      assert BindingOk(bindings[k], |tables.items|, images);
      if bindings[k].item >= |tables.items| || bindings[k].image >= images {
        return Err(InvalidXisf);
      }
      var n := Named(Some(bindings[k].image), tables.items[bindings[k].item].id);
      var again;
      again, known := Take(known, n, list);
      Appended(list, n);
      list := list + [n];
      assert list == properties + TableNames(bindings, tables)[..k + 1];
      if again {
        FrontHasDuplicate(list, properties + TableNames(bindings, tables));
        return Err(InvalidXisf);
      }
    }
    assert list == properties + TableNames(bindings, tables);
    return Ok(true);
  }

  lemma NothingTaken(known: Names)
    requires known.unit == {} && forall i | 0 <= i < |known.byImage| :: known.byImage[i] == {}
    ensures Holds(known, []) && NoDuplicates<Named>([])
  {
  }

  lemma Appended(list: seq<Named>, n: Named)
    requires NoDuplicates(list)
    ensures NoDuplicates(list + [n]) <==> n !in list
  {
    if n in list {
      var i :| 0 <= i < |list| && list[i] == n;
      assert (list + [n])[i] == (list + [n])[|list|];
    }
  }

  lemma FrontHasDuplicate(front: seq<Named>, list: seq<Named>)
    requires front <= list && !NoDuplicates(front)
    ensures !NoDuplicates(list)
  {
  }

  /** The names of the first bindings are the first names. */
  lemma {:induction false} PropertyNamesSplit(bindings: seq<MetadataBinding>, x: Entries, k: nat)
    requires k <= |bindings| && IndexesEntries(bindings, x)
    ensures PropertyNames(bindings[..k], x) <= PropertyNames(bindings, x)
    decreases |bindings|
  {
    if k == |bindings| {
      assert bindings[..k] == bindings;
    } else {
      var front := bindings[..|bindings| - 1];
      PropertyNamesSplit(front, x, k);
      assert front[..k] == bindings[..k];
    }
  }

  predicate IndexesEntries(bindings: seq<MetadataBinding>, x: Entries) {
    forall k | 0 <= k < |bindings| :: bindings[k].index < |x.items|
  }

  function PropertyNames(bindings: seq<MetadataBinding>, x: Entries): (names: seq<Named>)
    requires IndexesEntries(bindings, x)
  {
    if bindings == [] then []
    else
      var b := bindings[|bindings| - 1];
      PropertyNames(bindings[..|bindings| - 1], x)
      + if x.items[b.index].isProperty
        then [Named(if b.scope == UnitScope then None else b.image, x.items[b.index].name)] else []
  }

  predicate IndexesTables(bindings: seq<Binding>, x: Tables) {
    forall k | 0 <= k < |bindings| :: bindings[k].item < |x.items|
  }

  function TableNames(bindings: seq<Binding>, x: Tables): seq<Named>
    requires IndexesTables(bindings, x)
  {
    seq(|bindings|, k requires 0 <= k < |bindings| => Named(Some(bindings[k].image), x.items[bindings[k].item].id))
  }

  function IdsOf(fields: seq<FieldRec>): seq<string> {
    seq(|fields|, k requires 0 <= k < |fields| => fields[k].id)
  }

  /** References name core elements, those inside thumbnails no thumbnail, and a structure's fields differ. */
  predicate ReferencesOk(d: Draft) {
    && (forall k | 0 <= k < |d.references| :: d.references[k] in d.coreUids)
    && (forall k | 0 <= k < |d.thumbnailReferences| :: d.thumbnailReferences[k] !in d.thumbnails.uids)
    && forall k | 0 <= k < |d.tables.structures| :: NoDuplicates(IdsOf(d.tables.structures[k].fields))
  }

  // ---------------------------------------------------------------- the document

  datatype Document = Document(
    draft: Draft,
    metadata: seq<MetadataBinding>,
    ancillaries: seq<Binding>,
    profiles: seq<Binding>,
    thumbnails: seq<Binding>,
    tables: seq<Binding>,
    extensions: seq<Extension>)

  predicate AllOk(bindings: seq<Binding>, items: nat, images: nat) {
    forall k | 0 <= k < |bindings| :: BindingOk(bindings[k], items, images)
  }

  /** What the reading functions rely on when they index one list by a number from another. */
  predicate DocumentOk(doc: Document, rules: ValueRules) {
    var d := doc.draft;
    && |d.images.blocks| == |d.images.items| && |d.metadata.blocks| == |d.metadata.items|
    && |d.profiles.blocks| == |d.profiles.items| && |d.thumbnails.blocks| == |d.thumbnails.items|
    && (forall i | 0 <= i < |d.images.items| && d.images.items[i].block.kind == Embedded :: i < |d.images.seen| && d.images.seen[i])
    && (forall i | 0 <= i < |d.thumbnails.items| && d.thumbnails.items[i].block.kind == Embedded :: i < |d.thumbnails.seen| && d.thumbnails.seen[i])
    && (forall k | 0 <= k < |doc.metadata| :: MetadataBindingOk(doc.metadata[k], d.metadata, |d.images.items|))
    && AllOk(doc.ancillaries, d.ancillaries.count, |d.images.items|)
    && AllOk(doc.profiles, |d.profiles.items|, |d.images.items|)
    && AllOk(doc.thumbnails, |d.thumbnails.items|, |d.images.items|)
    && AllOk(doc.tables, |d.tables.items|, |d.images.items|)
    && (forall t | 0 <= t < |d.tables.items| :: TableComplete(d.tables.items[t], d.tables.structures, rules))
    && NoDuplicates(PropertyNames(doc.metadata, d.metadata) + TableNames(doc.tables, d.tables))
    && ReferencesOk(d)
    && d.metadata.elements == 1 && d.metadata.creationTime && d.metadata.creatorApplication
  }

  /** The tables with the structures that their references name. */
  function Resolved(x: Tables): Tables {
    x.(items := seq(|x.items|, t requires 0 <= t < |x.items| => x.items[t].(structure := StructureAfter(x, t, |x.references|))))
  }

  /** The document of a draft: its lists, and the bindings that its events ask for. */
  function Composed(d: Draft, tables: Tables, extensions: seq<Extension>): Document {
    var events := d.metadata.events;
    Document(d.(tables := tables), BindingsOf(events, d.metadata.uids),
             DirectBindings(d.ancillaries.events) + ReferenceBindings(events, d.ancillaries.uids),
             DirectBindings(d.profiles.events) + ReferenceBindings(events, d.profiles.uids),
             DirectBindings(d.thumbnails.events) + ReferenceBindings(events, d.thumbnails.uids),
             DirectBindings(tables.events) + ReferenceBindings(events, tables.uids), extensions)
  }

  predicate Composes(d: Draft, tables: Tables, options: HeaderOptions) {
    var events, doc := d.metadata.events, Composed(d, tables, []);
    && (forall k | 0 <= k < |events| :: !Refused(events[k], d.metadata, tables.structureUids))
    && BindsWithin(d.ancillaries.events, d.ancillaries.uids, events, options.maxAncillaryBindings, false)
    && BindsWithin(d.profiles.events, d.profiles.uids, events, options.maxProfileBindings, false)
    && BindsWithin(d.thumbnails.events, d.thumbnails.uids, events, options.maxThumbnailBindings, false)
    && BindsWithin(tables.events, tables.uids, events, options.maxTableBindings, true)
    && IndexesEntries(doc.metadata, d.metadata) && IndexesTables(doc.tables, tables)
    && NoDuplicates(PropertyNames(doc.metadata, d.metadata) + TableNames(doc.tables, tables))
  }

  /** Whether a draft becomes a document once all elements are closed. */
  predicate Finishes(d: Draft, options: HeaderOptions, rules: ValueRules) {
    && d.metadata.elements == 1 && d.metadata.creationTime && d.metadata.creatorApplication
    && ReferencesOk(d)
    && OneStructureEach(d.tables)
    && (forall t | 0 <= t < |d.tables.items| :: TableComplete(Resolved(d.tables).items[t], d.tables.structures, rules))
    && Composes(d, Resolved(d.tables), options)
  }

  /** The checks and resolutions of `parse_header` behind the last event. */
  method Finish(d: Draft, extensions: seq<Extension>, options: HeaderOptions, rules: ValueRules) returns (r: Result<Document>)
    requires Consistent([], d, options)
    ensures r.Err? ==> r.error == InvalidXisf || r.error == ResourceLimit
    ensures r.Ok? ==> DocumentOk(r.value, rules) && r.value.draft == d.(tables := r.value.draft.tables)
    ensures r.Ok? ==> TallyOf(r.value.draft) == TallyOf(d)
    ensures r.Ok? <==> Finishes(d, options, rules)
    ensures r.Ok? ==> r.value == Composed(d, Resolved(d.tables), extensions)
  {
    ClosedFacts(d, options);
    hide ImagesOk, EntriesOk, ProfilesOk, AncillariesOk, ThumbnailsOk, TablesOk, EncodedOk, GoodStack, Linked, NoDuplicates, TableComplete;
    hide OneStructureEach, Composes, Composed, ReferencesOk;
    var n := |d.images.items|;
    if d.metadata.elements != 1 || !d.metadata.creationTime || !d.metadata.creatorApplication {
      return Err(InvalidXisf);
    }
    if !ReferencesOk(d) {
      return Err(InvalidXisf);
    }
    var tables :- ResolveStructures(d.tables, n);
    assert tables == Resolved(d.tables) by {
      assert tables.items == Resolved(d.tables).items;
    }
    var complete := CheckTables(tables, n, rules);
    if !complete {
      return Err(InvalidXisf);
    }
    r := Resolve(d, tables, extensions, options);
  }

  method Resolve(d: Draft, tables: Tables, extensions: seq<Extension>, options: HeaderOptions) returns (r: Result<Document>)
    requires ListsOk(d, options) && TableListsOk(tables, |d.images.items|)
    requires tables == d.tables.(items := tables.items) && |tables.items| == |d.tables.items|
    ensures r.Err? ==> r.error == InvalidXisf || r.error == ResourceLimit
    ensures r.Ok? ==>
              && r.value.draft == d.(tables := tables)
              && (forall k | 0 <= k < |r.value.metadata| :: MetadataBindingOk(r.value.metadata[k], d.metadata, |d.images.items|))
              && AllOk(r.value.ancillaries, d.ancillaries.count, |d.images.items|)
              && AllOk(r.value.profiles, |d.profiles.items|, |d.images.items|)
              && AllOk(r.value.thumbnails, |d.thumbnails.items|, |d.images.items|)
              && AllOk(r.value.tables, |tables.items|, |d.images.items|)
              && NoDuplicates(PropertyNames(r.value.metadata, d.metadata) + TableNames(r.value.tables, tables))
    ensures r.Ok? <==> Composes(d, tables, options)
    ensures r.Ok? ==> r.value == Composed(d, tables, extensions)
  {
    hide ImagesOk, EntriesOk, ProfilesOk, ThumbnailsOk, TablesOk, EncodedOk, NoDuplicates, MetadataBindingOk, BindsWithin;
    hide BindingsOf, DirectBindings, ReferenceBindings, PropertyNames, TableNames;
    ObjectLists(d, options);
    var n := |d.images.items|;
    var events := d.metadata.events;
    var metadata :- BindMetadata(d.metadata, tables.structureUids, n);
    var ancillaries :- BindObjects(d.ancillaries.events, d.ancillaries.uids, events, options.maxAncillaryBindings, false,
                                   d.ancillaries.count, n, d.metadata);
    var profiles :- BindObjects(d.profiles.events, d.profiles.uids, events, options.maxProfileBindings, false,
                                |d.profiles.items|, n, d.metadata);
    var thumbnails :- BindObjects(d.thumbnails.events, d.thumbnails.uids, events, options.maxThumbnailBindings, false,
                                  |d.thumbnails.items|, n, d.metadata);
    var tableBindings :- BindObjects(tables.events, tables.uids, events, options.maxTableBindings, true, |tables.items|, n, d.metadata);
    assert AllOk(tableBindings, |tables.items|, n);
    var unique :- CheckNames(metadata, d.metadata, tableBindings, tables, n);
    return Ok(Document(d.(tables := tables), metadata, ancillaries, profiles, thumbnails, tableBindings, extensions));
  }

  lemma IndicesInRange(bindings: seq<MetadataBinding>, x: Entries, images: nat)
    requires forall k | 0 <= k < |bindings| :: MetadataBindingOk(bindings[k], x, images)
    ensures IndexesEntries(bindings, x)
  {
    assert forall k | 0 <= k < |bindings| :: MetadataBindingOk(bindings[k], x, images) ==> bindings[k].index < |x.items|;
  }

  lemma ObjectLists(d: Draft, options: HeaderOptions)
    requires ListsOk(d, options)
    ensures var n := |d.images.items|;
            && EventsOk(d.ancillaries.events, d.ancillaries.count, n) && UidsOk(d.ancillaries.uids, d.ancillaries.count)
            && EventsOk(d.profiles.events, |d.profiles.items|, n) && UidsOk(d.profiles.uids, |d.profiles.items|)
            && EventsOk(d.thumbnails.events, |d.thumbnails.items|, n) && UidsOk(d.thumbnails.uids, |d.thumbnails.items|)
  {
    hide EventsOk, UidsOk;
  }

  /** With every element closed, no list waits for anything. */
  lemma ClosedFacts(d: Draft, options: HeaderOptions)
    requires Consistent([], d, options)
    ensures NoneOpen(d.encoded) && d.images.stack == [] && d.thumbnails.open.None? && d.tables.open.None?
    ensures |d.images.blocks| == |d.images.items| == |d.images.seen| && |d.metadata.blocks| == |d.metadata.items|
    ensures |d.profiles.blocks| == |d.profiles.items| && |d.thumbnails.blocks| == |d.thumbnails.items| == |d.thumbnails.seen|
    ensures forall i | 0 <= i < |d.images.items| && d.images.items[i].block.kind == Embedded :: d.images.seen[i]
    ensures forall i | 0 <= i < |d.thumbnails.items| && d.thumbnails.items[i].block.kind == Embedded :: d.thumbnails.seen[i]
  {
  }
}
