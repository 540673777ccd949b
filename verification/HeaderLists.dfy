/**
 The lists that a header's elements fill, and what each kind of element does to its list. Attributes
 come already extracted.
 */
module HeaderLists {
  import opened Base
  import opened HeaderStack
  import opened Locations
  import opened Ranges
  import Text
  import E = EncodedText

  // ---------------------------------------------------------------- events

  /** How a Property or Cell gives its value. */
  datatype ValueForm = AttributeValue | CharacterData | DataBlock

  /** Outcome of the checks that look at an element's own attributes only. */
  datatype Fault = NoFault | Invalid | TooLarge | Unsupported

  /** The codes that the handlers report. */
  predicate HandlerCode(code: ErrorCode) {
    code == InvalidXisf || code == ResourceLimit || code == UnsupportedFeature
  }

  function CodeOf(f: Fault): (code: ErrorCode)
    ensures HandlerCode(code)
  {
    match f
    case TooLarge => ResourceLimit
    case Unsupported => UnsupportedFeature
    case _ => InvalidXisf
  }

  /** Only a location with this prefix can be an attachment. */
  lemma AttachedHasPrefix(tag: Tag)
    ensures BlockOf(tag).kind == Attachment ==> tag.location.Some? && StartsWith(tag.location.value, "attachment:")
  {
    hide Text.Find, Text.ParseUnsigned;
  }

  datatype Role = NoRole | CreationTime | CreatorApplication

  datatype Tag = Tag(
    name: Name,
    attributes: nat,
    bytes: nat,
    fault: Fault,
    uid: string,
    id: string,
    location: Option<string>,
    encoding: Option<E.Encoding>,
    value: Option<string>,
    blockAttributes: bool,
    role: Role,
    kind: string,
    length: Option<U64>,
    rows: Option<U64>,
    columns: Option<U64>)

  /** `parse_location` of the attribute; a block without one is of no known kind. */
  function BlockOf(tag: Tag): BlockLocation {
    if tag.location.Some? then ParseLocation(tag.location.value) else BlockLocation(Unknown, 0, 0)
  }

  function FormOf(tag: Tag): ValueForm {
    if tag.location.Some? then DataBlock else if tag.value.Some? then AttributeValue else CharacterData
  }

  /** The range of the file that a start tag claims. */
  function RangesOf(tag: Tag): seq<AttachedRange> {
    if BlockOf(tag).kind == Attachment then [AttachedRange(BlockOf(tag).offset, BlockOf(tag).size)] else []
  }

  datatype HeaderOptions = HeaderOptions(
    maxDepth: U64,
    maxNodes: U64,
    maxAttributes: U64,
    maxExtensions: U64,
    maxExtensionAttributes: U64,
    maxExtensionBytes: U64,
    maxImages: U64,
    maxMetadata: U64,
    maxMetadataValue: U64,
    maxProfiles: U64,
    maxProfileBindings: U64,
    maxAncillary: U64,
    maxAncillaryAttributes: U64,
    maxAncillaryBytes: U64,
    maxAncillaryBindings: U64,
    maxThumbnails: U64,
    maxThumbnailBindings: U64,
    maxTables: U64,
    maxTableBindings: U64,
    maxStructures: U64,
    maxFields: U64,
    maxRows: U64,
    maxCells: U64,
    maxTableText: U64,
    maxEncoded: U64,
    maxImageBlock: U64,
    maxPropertyBlock: U64,
    maxProfileBlock: U64,
    maxThumbnailBlock: U64)

  // ---------------------------------------------------------------- what is built

  datatype Extension = Extension(image: Option<nat>, text: string)

  /** An Image or Thumbnail, as far as the handlers look at it again. */
  datatype Stored = Stored(block: BlockLocation, blockAttributes: bool)

  datatype Scope = ImageScope | UnitScope | StandaloneScope

  datatype Entry = Entry(
    isProperty: bool,
    name: string,
    scope: Scope,
    image: Option<nat>,
    form: ValueForm,
    block: BlockLocation,
    value: string,
    kind: string,
    length: Option<U64>,
    rows: Option<U64>,
    columns: Option<U64>)

  datatype MetadataEvent =
    | Direct(index: nat, scope: Scope, image: Option<nat>)
    | ByReference(reference: string, scope: Scope, image: Option<nat>)

  /** An object that was declared inside an image. */
  datatype BindingEvent = BindingEvent(item: nat, image: nat)

  datatype CellRec = CellRec(
    form: ValueForm,
    block: BlockLocation,
    text: string,
    length: Option<U64>,
    rows: Option<U64>,
    columns: Option<U64>)

  datatype RowRec = RowRec(cells: seq<CellRec>)

  datatype TableRec = TableRec(id: string, rows: Option<U64>, columns: Option<U64>, body: seq<RowRec>, structure: Option<nat>)

  datatype FieldRec = FieldRec(id: string, kind: string)

  datatype StructureRec = StructureRec(fields: seq<FieldRec>)

  datatype TableReference = TableReference(table: nat, reference: string)

  // The builder's lists, one datatype for each kind of element; `open` and its like are the open indices.

  datatype Extensions = Extensions(items: seq<Extension>, attributes: nat, bytes: nat)

  datatype Images = Images(items: seq<Stored>, ids: set<string>, blocks: seq<Bytes>, seen: seq<bool>, stack: seq<nat>)

  datatype Entries = Entries(
    items: seq<Entry>,
    blocks: seq<Bytes>,
    uids: map<string, nat>,
    events: seq<MetadataEvent>,
    open: Option<nat>,
    elements: nat,
    creationTime: bool,
    creatorApplication: bool)

  datatype Profiles = Profiles(items: seq<BlockLocation>, blocks: seq<Bytes>, uids: map<string, nat>, events: seq<BindingEvent>)

  datatype Ancillaries = Ancillaries(
    count: nat,
    uids: map<string, nat>,
    events: seq<BindingEvent>,
    attributes: nat,
    bytes: nat)

  datatype Thumbnails = Thumbnails(
    items: seq<Stored>,
    blocks: seq<Bytes>,
    seen: seq<bool>,
    uids: map<string, nat>,
    events: seq<BindingEvent>,
    open: Option<nat>)

  datatype Tables = Tables(
    items: seq<TableRec>,
    uids: map<string, nat>,
    events: seq<BindingEvent>,
    references: seq<TableReference>,
    structures: seq<StructureRec>,
    structureUids: map<string, nat>,
    standaloneUids: map<string, nat>,
    fields: nat,
    rows: nat,
    cells: nat,
    text: nat,
    open: Option<nat>,
    openStructure: Option<nat>,
    openRow: Option<nat>,
    openCell: Option<nat>)

  /** The one encoded block that may be open: an Image's or Thumbnail's Data, or an inline Property or ICCProfile. */
  datatype Encoded = Encoded(
    image: Option<nat>,
    metadata: Option<nat>,
    profile: Option<nat>,
    thumbnail: Option<nat>,
    encoding: Option<E.Encoding>,
    decoding: E.Progress)

  datatype Stack = Stack(elements: seq<Name>, extensions: seq<Option<nat>>)

  /** `consume_..._bytes`: what a budget holds after taking `count` from it. */
  function Consume(used: nat, count: nat, limit: U64): (r: Option<nat>)
    ensures r.Some? <==> count <= limit - Min(used, limit)
    ensures r.Some? ==> r.value == used + count
  {
    if count > limit - Min(used, limit) then None else Some(used + count)
  }

  /** The result without the reason of a refusal. */
  function ToOption<T>(r: Result<T>): Option<T> {
    if r.Ok? then Some(r.value) else None
  }

  function Emplace(m: map<string, nat>, key: string, index: nat): map<string, nat> {
    if key == "" || key in m then m else m[key := index]
  }

  /** An object declared inside an image is bound to it. */
  function Bind(events: seq<BindingEvent>, item: nat, image: Option<nat>): seq<BindingEvent> {
    if image.Some? then events + [BindingEvent(item, image.value)] else events
  }

  predicate UidsOk(m: map<string, nat>, size: nat) {
    forall key | key in m :: m[key] < size
  }

  predicate EventsOk(events: seq<BindingEvent>, objects: nat, images: nat) {
    forall k | 0 <= k < |events| :: events[k].item < objects && events[k].image < images
  }

  predicate InRange(index: Option<nat>, size: nat) {
    index.Some? ==> index.value < size
  }

  predicate MetadataEventOk(e: MetadataEvent, entries: nat, images: nat) {
    && (e.Direct? ==> e.index < entries)
    && e.scope != StandaloneScope
    && (e.scope == ImageScope ==> e.image.Some?)
    && InRange(e.image, images)
  }

  // ---------------------------------------------------------------- what every handler keeps

  predicate Heights(s: Stack, depth: nat, extensions: nat) {
    && |s.elements| == |s.extensions| == depth
    && (forall k | 0 <= k < |s.extensions| :: InRange(s.extensions[k], extensions))
    && forall k | 0 <= k < |s.elements| :: s.extensions[k].Some? <==> k > 0 && s.elements[k].Foreign?
  }

  /** Only the open image can still lack its Data. */
  predicate ImagesOk(x: Images) {
    && |x.items| == |x.blocks| == |x.seen|
    && |x.stack| <= 1
    && (forall k | 0 <= k < |x.stack| :: x.stack[k] + 1 == |x.items|)
    && (forall i | 0 <= i < |x.items| && x.items[i].block.kind == Embedded && !x.seen[i] :: x.stack == [i])
    && forall i | 0 <= i < |x.items| && !x.seen[i] :: x.blocks[i] == []
  }

  predicate EntriesOk(x: Entries, images: nat) {
    && |x.items| == |x.blocks|
    && UidsOk(x.uids, |x.items|)
    && InRange(x.open, |x.items|)
    && forall k | 0 <= k < |x.events| :: MetadataEventOk(x.events[k], |x.items|, images)
  }

  predicate ProfilesOk(x: Profiles, images: nat) {
    |x.items| == |x.blocks| && UidsOk(x.uids, |x.items|) && EventsOk(x.events, |x.items|, images)
  }

  predicate AncillariesOk(x: Ancillaries, images: nat) {
    UidsOk(x.uids, x.count) && EventsOk(x.events, x.count, images)
  }

  predicate ThumbnailsOk(x: Thumbnails, images: nat) {
    && |x.items| == |x.blocks| == |x.seen|
    && UidsOk(x.uids, |x.items|)
    && EventsOk(x.events, |x.items|, images)
    && (x.open.Some? ==> x.open.value + 1 == |x.items|)
    && (forall i | 0 <= i < |x.items| && x.items[i].block.kind == Embedded && !x.seen[i] :: x.open == Some(i))
    && forall i | 0 <= i < |x.items| && !x.seen[i] :: x.blocks[i] == []
  }

  predicate TableListsOk(x: Tables, images: nat) {
    && UidsOk(x.uids, |x.items|) && UidsOk(x.structureUids, |x.structures|) && UidsOk(x.standaloneUids, |x.structures|)
    && EventsOk(x.events, |x.items|, images)
    && (forall k | 0 <= k < |x.references| :: x.references[k].table < |x.items|)
    && (forall t | 0 <= t < |x.items| :: InRange(x.items[t].structure, |x.structures|))
  }

  predicate TablesOpen(x: Tables) {
    && InRange(x.open, |x.items|) && InRange(x.openStructure, |x.structures|)
    && (x.openRow.Some? ==> x.open.Some? && x.openRow.value < |x.items[x.open.value].body|)
    && (x.openCell.Some? ==> x.openRow.Some? && x.openCell.value < |x.items[x.open.value].body[x.openRow.value].cells|)
    && forall i | 0 <= i < |x.structures| && x.structures[i].fields == [] :: x.openStructure == Some(i)
  }

  predicate TablesOk(x: Tables, images: nat) {
    TableListsOk(x, images) && TablesOpen(x)
  }

  predicate NoneOpen(x: Encoded) {
    x.image.None? && x.metadata.None? && x.profile.None? && x.thumbnail.None?
  }

  /** The open block among the lists of blocks. */
  function OpenBytes(x: Encoded, images: seq<Bytes>, metadata: seq<Bytes>, profiles: seq<Bytes>, thumbnails: seq<Bytes>): Option<Bytes> {
    if x.metadata.Some? then At(metadata, x.metadata.value)
    else if x.profile.Some? then At(profiles, x.profile.value)
    else if x.thumbnail.Some? then At(thumbnails, x.thumbnail.value)
    else if x.image.Some? then At(images, x.image.value)
    else None
  }

  function At(blocks: seq<Bytes>, i: nat): Option<Bytes> {
    if i < |blocks| then Some(blocks[i]) else None
  }

  function OutputLimit(x: Encoded, options: HeaderOptions): U64 {
    if x.metadata.Some? then options.maxPropertyBlock
    else if x.profile.Some? then options.maxProfileBlock
    else if x.thumbnail.Some? then options.maxThumbnailBlock
    else options.maxImageBlock
  }

  /** At most one encoded block is open, its index is in range, and the decoder holds its bytes. */
  predicate EncodedOk(
    x: Encoded, options: HeaderOptions, images: seq<Bytes>, metadata: seq<Bytes>, profiles: seq<Bytes>, thumbnails: seq<Bytes>)
  {
    && (x.image.Some? ==> x.metadata.None? && x.profile.None? && x.thumbnail.None?)
    && (x.metadata.Some? ==> x.profile.None? && x.thumbnail.None?)
    && (x.profile.Some? ==> x.thumbnail.None?)
    && (NoneOpen(x) <==> x.encoding.None?)
    && (!NoneOpen(x) ==>
          && x.decoding.Going? && E.InStep(x.decoding)
          && OpenBytes(x, images, metadata, profiles, thumbnails) == Some(x.decoding.output)
          && |x.decoding.output| <= OutputLimit(x, options) && 0 <= x.decoding.count <= options.maxEncoded)
  }

  /** Every open index belongs to an open element, and the other way round. */
  predicate Linked(s: seq<Name>, images: Images, thumbnails: Thumbnails, tables: Tables, encoded: Encoded) {
    && (images.stack != [] <==> Image in s)
    && (thumbnails.open.Some? <==> Thumbnail in s)
    && (tables.open.Some? <==> Table in s)
    && (tables.openStructure.Some? <==> Structure in s)
    && (tables.openRow.Some? <==> Row in s)
    && (tables.openCell.Some? <==> Cell in s)
    && (encoded.image.Some? || encoded.thumbnail.Some? <==> Data in s)
    && (encoded.image.Some? || encoded.thumbnail.Some? ==> s != [] && Top(s) == Data)
    && (encoded.metadata.Some? ==> s != [] && Top(s) == Property)
    && (encoded.profile.Some? ==> s != [] && Top(s) == IccProfile)
  }

  // ---------------------------------------------------------------- tables

  /** What an element makes of its list, or None if it is refused. */
  function TableAdded(x: Tables, tag: Tag, current: Option<nat>, options: HeaderOptions): Option<Tables> {
    var text := Consume(x.text, tag.bytes, options.maxTableText);
    if |x.items| >= options.maxTables || tag.fault != NoFault || text.None? then None
    else if current.Some? && |x.events| >= options.maxTableBindings then None
    else
      Some(x.(text := text.value, items := x.items + [TableRec(tag.id, tag.rows, tag.columns, [], None)],
              open := Some(|x.items|), uids := Emplace(x.uids, tag.uid, |x.items|), events := Bind(x.events, |x.items|, current)))
  }

  method AddTable(x: Tables, tag: Tag, current: Option<nat>, ghost images: nat, options: HeaderOptions) returns (r: Result<Tables>)
    requires TablesOk(x, images) && InRange(current, images) && x.openRow.None? && x.openCell.None?
    ensures r.Err? ==> HandlerCode(r.error)
    ensures r.Ok? ==> |r.value.items| == |x.items| + 1 && r.value.items[..|x.items|] == x.items && r.value.structures == x.structures
    ensures r.Ok? ==>
              && TablesOk(r.value, images)
              && r.value.open == Some(|x.items|)
              && r.value.openStructure == x.openStructure && r.value.openRow == x.openRow && r.value.openCell == x.openCell
    ensures r.Ok? ==> r.value.items[|x.items|] == TableRec(tag.id, tag.rows, tag.columns, [], None)
    ensures r.Ok? ==> r.value.uids == Emplace(x.uids, tag.uid, |x.items|) && r.value.events == Bind(x.events, |x.items|, current)
    ensures ToOption(r) == TableAdded(x, tag, current, options)
  {
    if |x.items| >= options.maxTables {
      return Err(ResourceLimit);
    }
    if tag.fault != NoFault {
      return Err(CodeOf(tag.fault));
    }
    var text := Consume(x.text, tag.bytes, options.maxTableText);
    if text.None? {
      return Err(ResourceLimit);
    }
    var index := |x.items|;
    var y := x.(text := text.value, items := x.items + [TableRec(tag.id, tag.rows, tag.columns, [], None)],
                open := Some(index), uids := Emplace(x.uids, tag.uid, index));
    if current.Some? {
      if |x.events| >= options.maxTableBindings {
        return Err(ResourceLimit);
      }
      y := y.(events := y.events + [BindingEvent(index, current.value)]);
    }
    return Ok(y);
  }

  predicate HasTable(x: Tables) {
    x.open.Some? && x.open.value < |x.items|
  }

  predicate HasRow(x: Tables) {
    HasTable(x) && x.openRow.Some? && x.openRow.value < |x.items[x.open.value].body|
  }

  /** `inTable` is whether the parent is a Table that is open. */
  function StructureAdded(x: Tables, tag: Tag, inTable: bool, options: HeaderOptions): Option<Tables> {
    var text := Consume(x.text, tag.bytes, options.maxTableText);
    var index := |x.structures|;
    if index >= options.maxStructures || text.None? then None
    else
      var y := x.(text := text.value, structures := x.structures + [StructureRec([])], openStructure := Some(index),
                  structureUids := Emplace(x.structureUids, tag.uid, index));
      if inTable then
        if !HasTable(x) || x.items[x.open.value].structure.Some? then None
        else Some(y.(items := y.items[x.open.value := y.items[x.open.value].(structure := Some(index))]))
      else if tag.uid == "" then None
      else Some(y.(standaloneUids := Emplace(y.standaloneUids, tag.uid, index)))
  }

  lemma TablesAreOpen(x: Tables, images: nat)
    requires TablesOk(x, images)
    ensures TablesOpen(x)
  {
  }

  lemma StructureAddedKeeps(x: Tables, tag: Tag, inTable: bool, images: nat, options: HeaderOptions)
    requires TablesOk(x, images) && (inTable ==> x.open.Some?) && x.openStructure.None?
    ensures var r := StructureAdded(x, tag, inTable, options);
            var n := |x.structures|;
            r.Some? ==>
              && |r.value.items| == |x.items| && |r.value.structures| == n + 1 && r.value.structures[..n] == x.structures
              && TablesOk(r.value, images)
              && r.value.openStructure == Some(n)
              && r.value.open == x.open && r.value.openRow == x.openRow && r.value.openCell == x.openCell
              && r.value.structures[n] == StructureRec([]) && r.value.structureUids == Emplace(x.structureUids, tag.uid, n)
              && (inTable ==>
                    && x.items[x.open.value].structure.None?
                    && r.value.items == x.items[x.open.value := x.items[x.open.value].(structure := Some(n))])
              && (!inTable ==>
                    r.value.items == x.items && tag.uid != "" && r.value.standaloneUids == Emplace(x.standaloneUids, tag.uid, n))
  {
    hide EventsOk;
  }

  method AddStructure(x: Tables, tag: Tag, inTable: bool, ghost images: nat, options: HeaderOptions) returns (r: Result<Tables>)
    requires TablesOk(x, images) && (inTable ==> x.open.Some?) && x.openStructure.None?
    ensures r.Err? ==> HandlerCode(r.error)
    ensures r.Ok? ==> |r.value.items| == |x.items| && |r.value.structures| == |x.structures| + 1
                      && r.value.structures[..|x.structures|] == x.structures
    ensures r.Ok? ==>
              && TablesOk(r.value, images)
              && r.value.openStructure == Some(|x.structures|)
              && r.value.open == x.open && r.value.openRow == x.openRow && r.value.openCell == x.openCell
    ensures r.Ok? ==> r.value.structures[|x.structures|] == StructureRec([])
    ensures r.Ok? ==> r.value.structureUids == Emplace(x.structureUids, tag.uid, |x.structures|)
    ensures r.Ok? && inTable ==>
              && x.items[x.open.value].structure.None?
              && r.value.items == x.items[x.open.value := x.items[x.open.value].(structure := Some(|x.structures|))]
    ensures r.Ok? && !inTable ==>
              && r.value.items == x.items && tag.uid != ""
              && r.value.standaloneUids == Emplace(x.standaloneUids, tag.uid, |x.structures|)
    ensures ToOption(r) == StructureAdded(x, tag, inTable, options)
  {
    StructureAddedKeeps(x, tag, inTable, images, options);
    TablesAreOpen(x, images);
    hide EventsOk, TableListsOk, TablesOk, UidsOk;
    if |x.structures| >= options.maxStructures {
      return Err(ResourceLimit);
    }
    if !inTable && tag.uid == "" {
      return Err(InvalidXisf);
    }
    if inTable && x.items[x.open.value].structure.Some? {
      return Err(InvalidXisf);
    }
    var text := Consume(x.text, tag.bytes, options.maxTableText);
    if text.None? {
      return Err(ResourceLimit);
    }
    var index := |x.structures|;
    var y := x.(text := text.value, structures := x.structures + [StructureRec([])], openStructure := Some(index),
                structureUids := Emplace(x.structureUids, tag.uid, index));
    if inTable {
      y := y.(items := y.items[x.open.value := y.items[x.open.value].(structure := Some(index))]);
    } else {
      y := y.(standaloneUids := Emplace(y.standaloneUids, tag.uid, index));
    }
    return Ok(y);
  }

  function FieldAdded(x: Tables, tag: Tag, options: HeaderOptions): Option<Tables> {
    var text := Consume(x.text, tag.bytes, options.maxTableText);
    if x.fields >= options.maxFields || tag.fault != NoFault || text.None? || x.openStructure.None? then None
    else
      var i := x.openStructure.value;
      if i >= |x.structures| then None
      else Some(x.(text := text.value, fields := x.fields + 1,
                   structures := x.structures[i := StructureRec(x.structures[i].fields + [FieldRec(tag.id, tag.kind)])]))
  }

  method AddField(x: Tables, tag: Tag, ghost images: nat, options: HeaderOptions) returns (r: Result<Tables>)
    requires TablesOk(x, images) && x.openStructure.Some?
    ensures r.Err? ==> HandlerCode(r.error)
    ensures r.Ok? ==> r.value.items == x.items && |r.value.structures| == |x.structures|
    ensures r.Ok? ==> TablesOk(r.value, images) && SameOpen(r.value, x)
    ensures r.Ok? ==> var i := x.openStructure.value;
                      r.value.structures == x.structures[i := StructureRec(x.structures[i].fields + [FieldRec(tag.id, tag.kind)])]
    ensures ToOption(r) == FieldAdded(x, tag, options)
  {
    if x.fields >= options.maxFields {
      return Err(ResourceLimit);
    }
    if tag.fault != NoFault {
      return Err(CodeOf(tag.fault));
    }
    var text := Consume(x.text, tag.bytes, options.maxTableText);
    if text.None? {
      return Err(ResourceLimit);
    }
    var i := x.openStructure.value;
    return Ok(x.(text := text.value, fields := x.fields + 1,
                 structures := x.structures[i := StructureRec(x.structures[i].fields + [FieldRec(tag.id, tag.kind)])]));
  }

  predicate SameOpen(x: Tables, y: Tables) {
    x.open == y.open && x.openStructure == y.openStructure && x.openRow == y.openRow && x.openCell == y.openCell
  }

  function RowAdded(x: Tables, options: HeaderOptions): Option<Tables> {
    if x.rows >= options.maxRows || !HasTable(x) then None
    else
      var t := x.open.value;
      var body := x.items[t].body + [RowRec([])];
      Some(x.(items := x.items[t := x.items[t].(body := body)], openRow := Some(|body| - 1), rows := x.rows + 1))
  }

  method AddRow(x: Tables, ghost images: nat, options: HeaderOptions) returns (r: Result<Tables>)
    requires TablesOk(x, images) && x.open.Some? && x.openRow.None?
    ensures r.Err? ==> HandlerCode(r.error)
    ensures r.Ok? ==> |r.value.items| == |x.items| && r.value.structures == x.structures
    ensures r.Ok? ==>
              && TablesOk(r.value, images)
              && r.value.openRow.Some?
              && r.value.open == x.open && r.value.openStructure == x.openStructure && r.value.openCell == x.openCell
    ensures r.Ok? ==> var t := x.open.value;
                      && r.value.items == x.items[t := x.items[t].(body := x.items[t].body + [RowRec([])])]
                      && r.value.openRow == Some(|x.items[t].body|)
    ensures ToOption(r) == RowAdded(x, options)
  {
    if x.rows >= options.maxRows {
      return Err(ResourceLimit);
    }
    var t := x.open.value;
    var body := x.items[t].body + [RowRec([])];
    return Ok(x.(items := x.items[t := x.items[t].(body := body)], openRow := Some(|body| - 1), rows := x.rows + 1));
  }

  function CellOf(tag: Tag): CellRec {
    CellRec(FormOf(tag), BlockOf(tag), tag.value.GetOr(""), tag.length, tag.rows, tag.columns)
  }

  function CellAdded(x: Tables, tag: Tag, options: HeaderOptions): Option<Tables> {
    var text := Consume(x.text, tag.bytes, options.maxTableText);
    if x.cells >= options.maxCells || tag.fault != NoFault || text.None? || !HasRow(x) then None
    else if tag.location.Some? && (BlockOf(tag).kind == Embedded || BlockOf(tag).kind == Unknown) then None
    else if BlockOf(tag).kind == InlineData && tag.encoding.None? then None
    else
      var t, row := x.open.value, x.openRow.value;
      var cells := x.items[t].body[row].cells + [CellOf(tag)];
      Some(x.(text := text.value, items := x.items[t := x.items[t].(body := x.items[t].body[row := RowRec(cells)])],
              openCell := Some(|cells| - 1), cells := x.cells + 1))
  }

  method AddCell(x: Tables, tag: Tag, ghost images: nat, options: HeaderOptions) returns (r: Result<Tables>)
    requires TablesOk(x, images) && x.open.Some? && x.openRow.Some? && x.openCell.None?
    ensures r.Err? ==> HandlerCode(r.error)
    ensures r.Ok? ==> |r.value.items| == |x.items| && r.value.structures == x.structures
    ensures r.Ok? ==>
              && TablesOk(r.value, images)
              && r.value.openCell.Some?
              && r.value.open == x.open && r.value.openStructure == x.openStructure && r.value.openRow == x.openRow
    ensures r.Ok? ==> var t, row := x.open.value, x.openRow.value;
                      var cells := x.items[t].body[row].cells + [CellOf(tag)];
                      && r.value.items == x.items[t := x.items[t].(body := x.items[t].body[row := RowRec(cells)])]
                      && r.value.openCell == Some(|cells| - 1)
    ensures ToOption(r) == CellAdded(x, tag, options)
  {
    if x.cells >= options.maxCells {
      return Err(ResourceLimit);
    }
    if tag.fault != NoFault {
      return Err(CodeOf(tag.fault));
    }
    var text := Consume(x.text, tag.bytes, options.maxTableText);
    if text.None? {
      return Err(ResourceLimit);
    }
    if tag.location.Some? && (BlockOf(tag).kind == Embedded || BlockOf(tag).kind == Unknown) {
      return Err(InvalidXisf);
    }
    if BlockOf(tag).kind == InlineData && tag.encoding.None? {
      return Err(UnsupportedFeature);
    }
    var t, row := x.open.value, x.openRow.value;
    var cells := x.items[t].body[row].cells + [CellOf(tag)];
    var body := x.items[t].body[row := RowRec(cells)];
    return Ok(x.(text := text.value, items := x.items[t := x.items[t].(body := body)], openCell := Some(|cells| - 1),
                 cells := x.cells + 1));
  }

  function TableReferenceAdded(x: Tables, reference: string, options: HeaderOptions): Option<Tables> {
    if |x.references| >= options.maxTables || x.open.None? then None
    else Some(x.(references := x.references + [TableReference(x.open.value, reference)]))
  }

  method AddTableReference(x: Tables, reference: string, ghost images: nat, options: HeaderOptions) returns (r: Result<Tables>)
    requires TablesOk(x, images) && x.open.Some?
    ensures r.Err? ==> HandlerCode(r.error)
    ensures r.Ok? ==> r.value.items == x.items && r.value.structures == x.structures
    ensures r.Ok? ==> TablesOk(r.value, images) && SameOpen(r.value, x)
    ensures r.Ok? ==> r.value.references == x.references + [TableReference(x.open.value, reference)]
    ensures ToOption(r) == TableReferenceAdded(x, reference, options)
  {
    if |x.references| >= options.maxTables {
      return Err(ResourceLimit);
    }
    return Ok(x.(references := x.references + [TableReference(x.open.value, reference)]));
  }

  function RowClosed(x: Tables): Option<Tables> {
    if !HasRow(x) || x.items[x.open.value].body[x.openRow.value].cells == [] then None else Some(x.(openRow := None))
  }

  method CloseRow(x: Tables, ghost images: nat) returns (r: Result<Tables>)
    requires TablesOk(x, images) && x.openRow.Some? && x.openCell.None?
    ensures r.Err? ==> HandlerCode(r.error)
    ensures r.Ok? ==> TablesOk(r.value, images) && r.value == x.(openRow := None)
    ensures ToOption(r) == RowClosed(x)
  {
    if x.items[x.open.value].body[x.openRow.value].cells == [] {
      return Err(InvalidXisf);
    }
    return Ok(x.(openRow := None));
  }

  function StructureClosed(x: Tables): Option<Tables> {
    if x.openStructure.None? || x.openStructure.value >= |x.structures| || x.structures[x.openStructure.value].fields == [] then None
    else Some(x.(openStructure := None))
  }

  method CloseStructure(x: Tables, ghost images: nat) returns (r: Result<Tables>)
    requires TablesOk(x, images) && x.openStructure.Some?
    ensures r.Err? ==> HandlerCode(r.error)
    ensures r.Ok? ==> TablesOk(r.value, images) && r.value == x.(openStructure := None)
    ensures ToOption(r) == StructureClosed(x)
  {
    if x.structures[x.openStructure.value].fields == [] {
      return Err(InvalidXisf);
    }
    return Ok(x.(openStructure := None));
  }

  predicate TakesText(cell: CellRec) {
    cell.form == CharacterData || (cell.form == DataBlock && cell.block.kind == InlineData)
  }

  function OpenCellOf(x: Tables): CellRec
    requires TablesOpen(x) && x.openCell.Some?
  {
    x.items[x.open.value].body[x.openRow.value].cells[x.openCell.value]
  }

  /** Whether text may stand in the open cell: any white space, or what fits the budget where the cell takes text. */
  predicate CellAllows(x: Tables, text: string, blank: bool, options: HeaderOptions)
    requires TablesOpen(x) && x.openCell.Some?
  {
    if TakesText(OpenCellOf(x)) then Consume(x.text, |text|, options.maxTableText).Some? else blank
  }

  /** The tables after text in the open cell. */
  function WithCellText(x: Tables, text: string): Tables
    requires TablesOpen(x) && x.openCell.Some?
  {
    if TakesText(OpenCellOf(x)) then
      var t, row, k := x.open.value, x.openRow.value, x.openCell.value;
      var cell := OpenCellOf(x);
      var cells := x.items[t].body[row].cells[k := cell.(text := cell.text + text)];
      x.(text := x.text + |text|, items := x.items[t := x.items[t].(body := x.items[t].body[row := RowRec(cells)])])
    else x
  }

  /** Character data inside an open Cell. */
  method CellText(x: Tables, text: string, blank: bool, ghost images: nat, options: HeaderOptions) returns (r: Result<Tables>)
    requires TablesOk(x, images) && x.openCell.Some?
    ensures r.Err? ==> HandlerCode(r.error)
    ensures r.Ok? ==> |r.value.items| == |x.items| && r.value.structures == x.structures
    ensures r.Ok? ==> TablesOk(r.value, images) && SameOpen(r.value, x)
    ensures r.Ok? <==> CellAllows(x, text, blank, options)
    ensures r.Ok? ==> r.value == WithCellText(x, text)
  {
    var t, row, k := x.open.value, x.openRow.value, x.openCell.value;
    var cell := x.items[t].body[row].cells[k];
    if !TakesText(cell) {
      return if blank then Ok(x) else Err(InvalidXisf);
    }
    var used := Consume(x.text, |text|, options.maxTableText);
    if used.None? {
      return Err(ResourceLimit);
    }
    var cells := x.items[t].body[row].cells[k := cell.(text := cell.text + text)];
    var body := x.items[t].body[row := RowRec(cells)];
    return Ok(x.(text := used.value, items := x.items[t := x.items[t].(body := body)]));
  }

  // ---------------------------------------------------------------- images and thumbnails

  function ImageAdded(x: Images, tag: Tag, options: HeaderOptions): Option<Images> {
    if |x.items| >= options.maxImages || tag.fault != NoFault || (tag.id != "" && tag.id in x.ids) then None
    else if BlockOf(tag).kind == InlineData || BlockOf(tag).kind == Unknown then None
    else
      Some(Images(x.items + [Stored(BlockOf(tag), tag.blockAttributes)], if tag.id == "" then x.ids else x.ids + {tag.id},
                  x.blocks + [[]], x.seen + [false], x.stack + [|x.items|]))
  }

  method AddImage(x: Images, tag: Tag, options: HeaderOptions) returns (r: Result<Images>)
    requires ImagesOk(x) && x.stack == []
    ensures r.Err? ==> HandlerCode(r.error)
    ensures r.Ok? ==>
              && ImagesOk(r.value)
              && r.value.stack == [|x.items|]
              && r.value.items == x.items + [Stored(BlockOf(tag), tag.blockAttributes)]
              && r.value.blocks == x.blocks + [[]] && r.value.seen == x.seen + [false]
    ensures ToOption(r) == ImageAdded(x, tag, options)
  {
    if |x.items| >= options.maxImages {
      return Err(ResourceLimit);
    }
    if tag.fault != NoFault {
      return Err(CodeOf(tag.fault));
    }
    if tag.id != "" && tag.id in x.ids {
      return Err(InvalidXisf);
    }
    if BlockOf(tag).kind == InlineData || BlockOf(tag).kind == Unknown {
      return Err(InvalidXisf);
    }
    return Ok(Images(x.items + [Stored(BlockOf(tag), tag.blockAttributes)], if tag.id == "" then x.ids else x.ids + {tag.id},
                     x.blocks + [[]], x.seen + [false], x.stack + [|x.items|]));
  }

  function ThumbnailAdded(x: Thumbnails, tag: Tag, current: Option<nat>, options: HeaderOptions): Option<Thumbnails> {
    if |x.items| >= options.maxThumbnails || tag.fault != NoFault then None
    else if BlockOf(tag).kind == InlineData || BlockOf(tag).kind == Unknown then None
    else if current.Some? && |x.events| >= options.maxThumbnailBindings then None
    else
      Some(Thumbnails(x.items + [Stored(BlockOf(tag), tag.blockAttributes)], x.blocks + [[]], x.seen + [false],
                      Emplace(x.uids, tag.uid, |x.items|), Bind(x.events, |x.items|, current), Some(|x.items|)))
  }

  method AddThumbnail(x: Thumbnails, tag: Tag, current: Option<nat>, ghost images: nat, options: HeaderOptions)
    returns (r: Result<Thumbnails>)
    requires ThumbnailsOk(x, images) && InRange(current, images) && x.open.None?
    ensures r.Err? ==> HandlerCode(r.error)
    ensures r.Ok? ==>
              && ThumbnailsOk(r.value, images)
              && r.value.open == Some(|x.items|)
              && r.value.items == x.items + [Stored(BlockOf(tag), tag.blockAttributes)]
              && r.value.blocks == x.blocks + [[]] && r.value.seen == x.seen + [false]
    ensures r.Ok? ==> r.value.uids == Emplace(x.uids, tag.uid, |x.items|) && r.value.events == Bind(x.events, |x.items|, current)
    ensures ToOption(r) == ThumbnailAdded(x, tag, current, options)
  {
    if |x.items| >= options.maxThumbnails {
      return Err(ResourceLimit);
    }
    if tag.fault != NoFault {
      return Err(CodeOf(tag.fault));
    }
    if BlockOf(tag).kind == InlineData || BlockOf(tag).kind == Unknown {
      return Err(InvalidXisf);
    }
    var index := |x.items|;
    var y := Thumbnails(x.items + [Stored(BlockOf(tag), tag.blockAttributes)], x.blocks + [[]], x.seen + [false],
                        Emplace(x.uids, tag.uid, index), x.events, Some(index));
    if current.Some? {
      if |x.events| >= options.maxThumbnailBindings {
        return Err(ResourceLimit);
      }
      y := y.(events := y.events + [BindingEvent(index, current.value)]);
    }
    return Ok(y);
  }

  function ImageDataAdded(x: Images, tag: Tag): Option<Images> {
    if x.stack == [] then None
    else
      var i := x.stack[|x.stack| - 1];
      if i >= |x.items| || i >= |x.seen| || x.seen[i] || tag.encoding.None? || x.items[i].blockAttributes then None
      else Some(x.(seen := x.seen[i := true], items := x.items[i := x.items[i].(blockAttributes := tag.blockAttributes)]))
  }

  function ThumbnailDataAdded(x: Thumbnails, tag: Tag): Option<Thumbnails> {
    if x.open.None? then None
    else
      var i := x.open.value;
      if i >= |x.items| || i >= |x.seen| || x.seen[i] || tag.encoding.None? || x.items[i].blockAttributes then None
      else Some(x.(seen := x.seen[i := true], items := x.items[i := x.items[i].(blockAttributes := tag.blockAttributes)]))
  }

  /** The one Data child of an embedded Image takes over the block attributes. */
  method AddImageData(x: Images, tag: Tag) returns (r: Result<Images>)
    requires ImagesOk(x) && x.stack != []
    ensures r.Err? ==> HandlerCode(r.error)
    ensures r.Ok? ==>
              && ImagesOk(r.value)
              && r.value.blocks == x.blocks && r.value.stack == x.stack && |r.value.items| == |x.items|
              && !x.seen[x.stack[0]] && r.value.seen == x.seen[x.stack[0] := true]
              && tag.encoding.Some? && x.blocks[x.stack[0]] == []
    ensures ToOption(r) == ImageDataAdded(x, tag)
  {
    var i := x.stack[|x.stack| - 1];
    if x.seen[i] || tag.encoding.None? || x.items[i].blockAttributes {
      return Err(InvalidXisf);
    }
    return Ok(x.(seen := x.seen[i := true], items := x.items[i := x.items[i].(blockAttributes := tag.blockAttributes)]));
  }

  method AddThumbnailData(x: Thumbnails, tag: Tag, ghost images: nat) returns (r: Result<Thumbnails>)
    requires ThumbnailsOk(x, images) && x.open.Some?
    ensures r.Err? ==> HandlerCode(r.error)
    ensures r.Ok? ==>
              && ThumbnailsOk(r.value, images)
              && r.value.blocks == x.blocks && r.value.open == x.open && |r.value.items| == |x.items|
              && !x.seen[x.open.value] && r.value.seen == x.seen[x.open.value := true]
              && tag.encoding.Some? && x.blocks[x.open.value] == []
    ensures ToOption(r) == ThumbnailDataAdded(x, tag)
  {
    var i := x.open.value;
    if x.seen[i] || tag.encoding.None? || x.items[i].blockAttributes {
      return Err(InvalidXisf);
    }
    return Ok(x.(seen := x.seen[i := true], items := x.items[i := x.items[i].(blockAttributes := tag.blockAttributes)]));
  }

  function ImageClosed(x: Images): Option<Images> {
    if x.stack == [] then None
    else
      var i := x.stack[|x.stack| - 1];
      if i >= |x.items| || i >= |x.seen| || (x.items[i].block.kind == Embedded && !x.seen[i]) then None
      else Some(x.(stack := x.stack[..|x.stack| - 1]))
  }

  function ThumbnailClosed(x: Thumbnails): Option<Thumbnails> {
    if x.open.None? then None
    else
      var i := x.open.value;
      if i >= |x.items| || i >= |x.seen| || (x.items[i].block.kind == Embedded && !x.seen[i]) then None
      else Some(x.(open := None))
  }

  /** An embedded Image cannot close before its Data has been seen. */
  method CloseImage(x: Images) returns (r: Result<Images>)
    requires ImagesOk(x) && x.stack != []
    ensures r.Err? ==> HandlerCode(r.error)
    ensures r.Ok? ==> ImagesOk(r.value) && r.value == x.(stack := [])
    ensures ToOption(r) == ImageClosed(x)
  {
    var i := x.stack[|x.stack| - 1];
    if x.items[i].block.kind == Embedded && !x.seen[i] {
      return Err(InvalidXisf);
    }
    return Ok(x.(stack := x.stack[..|x.stack| - 1]));
  }

  method CloseThumbnail(x: Thumbnails, ghost images: nat) returns (r: Result<Thumbnails>)
    requires ThumbnailsOk(x, images) && x.open.Some?
    ensures r.Err? ==> HandlerCode(r.error)
    ensures r.Ok? ==> ThumbnailsOk(r.value, images) && r.value == x.(open := None)
    ensures ToOption(r) == ThumbnailClosed(x)
  {
    if x.items[x.open.value].block.kind == Embedded && !x.seen[x.open.value] {
      return Err(InvalidXisf);
    }
    return Ok(x.(open := None));
  }

  // ---------------------------------------------------------------- profiles, ancillary objects, metadata

  function ProfileAdded(x: Profiles, tag: Tag, current: Option<nat>, options: HeaderOptions): Option<Profiles> {
    if |x.items| >= options.maxProfiles || tag.fault != NoFault then None
    else if BlockOf(tag).kind == Embedded || BlockOf(tag).kind == Unknown then None
    else if BlockOf(tag).kind == InlineData && tag.encoding.None? then None
    else if current.Some? && |x.events| >= options.maxProfileBindings then None
    else Some(Profiles(x.items + [BlockOf(tag)], x.blocks + [[]], Emplace(x.uids, tag.uid, |x.items|), Bind(x.events, |x.items|, current)))
  }

  method AddProfile(x: Profiles, tag: Tag, current: Option<nat>, ghost images: nat, options: HeaderOptions) returns (r: Result<Profiles>)
    requires ProfilesOk(x, images) && InRange(current, images)
    ensures r.Err? ==> HandlerCode(r.error)
    ensures r.Ok? ==>
              && ProfilesOk(r.value, images)
              && r.value.items == x.items + [BlockOf(tag)] && r.value.blocks == x.blocks + [[]]
              && (BlockOf(tag).kind == InlineData ==> tag.encoding.Some?)
    ensures r.Ok? ==> r.value.uids == Emplace(x.uids, tag.uid, |x.items|) && r.value.events == Bind(x.events, |x.items|, current)
    ensures ToOption(r) == ProfileAdded(x, tag, current, options)
  {
    if |x.items| >= options.maxProfiles {
      return Err(ResourceLimit);
    }
    if tag.fault != NoFault {
      return Err(CodeOf(tag.fault));
    }
    if BlockOf(tag).kind == Embedded || BlockOf(tag).kind == Unknown {
      return Err(InvalidXisf);
    }
    if BlockOf(tag).kind == InlineData && tag.encoding.None? {
      return Err(UnsupportedFeature);
    }
    var index := |x.items|;
    var y := Profiles(x.items + [BlockOf(tag)], x.blocks + [[]], Emplace(x.uids, tag.uid, index), x.events);
    if current.Some? {
      if |x.events| >= options.maxProfileBindings {
        return Err(ResourceLimit);
      }
      y := y.(events := y.events + [BindingEvent(index, current.value)]);
    }
    return Ok(y);
  }

  function AncillaryAdded(x: Ancillaries, tag: Tag, current: Option<nat>, options: HeaderOptions): Option<Ancillaries> {
    var attributes := Consume(x.attributes, tag.attributes, options.maxAncillaryAttributes);
    var bytes := Consume(x.bytes, tag.bytes, options.maxAncillaryBytes);
    if x.count >= options.maxAncillary || attributes.None? || tag.fault != NoFault || bytes.None? then None
    else if current.Some? && |x.events| >= options.maxAncillaryBindings then None
    else
      Some(Ancillaries(x.count + 1, Emplace(x.uids, tag.uid, x.count), Bind(x.events, x.count, current), attributes.value, bytes.value))
  }

  method AddAncillary(x: Ancillaries, tag: Tag, current: Option<nat>, ghost images: nat, options: HeaderOptions)
    returns (r: Result<Ancillaries>)
    requires AncillariesOk(x, images) && InRange(current, images)
    ensures r.Err? ==> HandlerCode(r.error)
    ensures r.Ok? ==> AncillariesOk(r.value, images) && r.value.count == x.count + 1
    ensures r.Ok? ==> r.value.uids == Emplace(x.uids, tag.uid, x.count) && r.value.events == Bind(x.events, x.count, current)
    ensures ToOption(r) == AncillaryAdded(x, tag, current, options)
  {
    if x.count >= options.maxAncillary {
      return Err(ResourceLimit);
    }
    var attributes := Consume(x.attributes, tag.attributes, options.maxAncillaryAttributes);
    if attributes.None? {
      return Err(ResourceLimit);
    }
    if tag.fault != NoFault {
      return Err(CodeOf(tag.fault));
    }
    var bytes := Consume(x.bytes, tag.bytes, options.maxAncillaryBytes);
    if bytes.None? {
      return Err(ResourceLimit);
    }
    var y := Ancillaries(x.count + 1, Emplace(x.uids, tag.uid, x.count), x.events, attributes.value, bytes.value);
    if current.Some? {
      if |x.events| >= options.maxAncillaryBindings {
        return Err(ResourceLimit);
      }
      y := y.(events := y.events + [BindingEvent(x.count, current.value)]);
    }
    return Ok(y);
  }

  predicate RoleIsFree(x: Entries, role: Role) {
    (role == CreationTime ==> !x.creationTime) && (role == CreatorApplication ==> !x.creatorApplication)
  }

  function RoleNoted(x: Entries, role: Role): Entries {
    x.(creationTime := x.creationTime || role == CreationTime, creatorApplication := x.creatorApplication || role == CreatorApplication)
  }

  /** `XISF:CreationTime` and `XISF:CreatorApplication` may stand in the Metadata element once each. */
  method NoteRole(x: Entries, role: Role, ghost images: nat) returns (r: Result<Entries>)
    requires EntriesOk(x, images)
    ensures r.Ok? ==> EntriesOk(r.value, images)
                      && r.value == x.(creationTime := r.value.creationTime, creatorApplication := r.value.creatorApplication)
    ensures r.Ok? <==> (role == CreationTime ==> !x.creationTime) && (role == CreatorApplication ==> !x.creatorApplication)
    ensures r.Ok? ==> (r.value.creationTime <==> x.creationTime || role == CreationTime)
                      && (r.value.creatorApplication <==> x.creatorApplication || role == CreatorApplication)
    ensures r.Err? ==> r.error == InvalidXisf
    ensures ToOption(r) == if RoleIsFree(x, role) then Some(RoleNoted(x, role)) else None
  {
    if role == CreationTime {
      return if x.creationTime then Err(InvalidXisf) else Ok(x.(creationTime := true));
    } else if role == CreatorApplication {
      return if x.creatorApplication then Err(InvalidXisf) else Ok(x.(creatorApplication := true));
    }
    return Ok(x);
  }

  function EntryOf(tag: Tag, isProperty: bool, inMetadata: bool, current: Option<nat>): Entry {
    Entry(isProperty, tag.id, if current.Some? then ImageScope else if inMetadata then UnitScope else StandaloneScope, current,
          if isProperty then FormOf(tag) else AttributeValue, if isProperty then BlockOf(tag) else BlockLocation(Unknown, 0, 0),
          tag.value.GetOr(""), tag.kind, tag.length, tag.rows, tag.columns)
  }

  predicate EntryAdmitted(x: Entries, tag: Tag, isProperty: bool, inMetadata: bool, current: Option<nat>, options: HeaderOptions) {
    && |x.items| < options.maxMetadata && tag.fault == NoFault
    && (isProperty && inMetadata ==> RoleIsFree(x, tag.role))
    && (isProperty && tag.location.Some? ==> BlockOf(tag).kind != Embedded && BlockOf(tag).kind != Unknown)
    && (current.Some? || inMetadata ==> |x.events| < options.maxMetadata)
    && (InlineProperty(tag, isProperty) ==> tag.encoding.Some?)
  }

  function EntryAdded(x: Entries, tag: Tag, isProperty: bool, inMetadata: bool, current: Option<nat>,
      options: HeaderOptions): Option<Entries> {
    if EntryAdmitted(x, tag, isProperty, inMetadata, current, options) then
      var y := PushEntry(RoleNoted(x, if isProperty && inMetadata then tag.role else NoRole), tag.uid,
                         EntryOf(tag, isProperty, inMetadata, current));
      Some(if isProperty && FormOf(tag) == CharacterData then y.(open := Some(|x.items|)) else y)
    else None
  }

  lemma EntryAddedKeeps(
    x: Entries, tag: Tag, isProperty: bool, inMetadata: bool, current: Option<nat>, images: nat, options: HeaderOptions)
    requires EntriesOk(x, images) && InRange(current, images)
    ensures var r := EntryAdded(x, tag, isProperty, inMetadata, current, options);
            var n := |x.items|;
            r.Some? ==>
              && EntriesOk(r.value, images)
              && |r.value.items| == n + 1 && r.value.items[..n] == x.items && r.value.blocks == x.blocks + [[]]
              && r.value.items[n].image == current && (r.value.items[n].scope == ImageScope <==> current.Some?)
              && r.value.items[n].isProperty == isProperty && r.value.items[n].name == tag.id
              && (InlineProperty(tag, isProperty) ==> tag.encoding.Some?)
              && (isProperty ==> r.value.items[n].block == BlockOf(tag) && r.value.items[n].form == FormOf(tag))
              && (!isProperty ==> r.value.items[n].block.kind == Unknown)
              && r.value.uids == Emplace(x.uids, tag.uid, n)
              && r.value.events == (if current.Some? then x.events + [Direct(n, ImageScope, current)]
                                    else if inMetadata then x.events + [Direct(n, UnitScope, None)] else x.events)
              && r.value.open == (if isProperty && FormOf(tag) == CharacterData then Some(n) else x.open)
  {
    hide ParseLocation;
    var role := if isProperty && inMetadata then tag.role else NoRole;
    PushEntryKeeps(RoleNoted(x, role), tag.uid, EntryOf(tag, isProperty, inMetadata, current), images);
  }

  method AddEntry(
    x: Entries, tag: Tag, isProperty: bool, inMetadata: bool, current: Option<nat>, ghost images: nat, options: HeaderOptions)
    returns (r: Result<Entries>)
    requires EntriesOk(x, images) && InRange(current, images)
    ensures r.Err? ==> HandlerCode(r.error)
    ensures r.Ok? ==>
              && EntriesOk(r.value, images)
              && |r.value.items| == |x.items| + 1 && r.value.items[..|x.items|] == x.items
              && r.value.items[|x.items|].image == current
              && (r.value.items[|x.items|].scope == ImageScope <==> current.Some?)
              && r.value.blocks == x.blocks + [[]]
              && (InlineProperty(tag, isProperty) ==> tag.encoding.Some?)
    ensures r.Ok? ==> r.value.uids == Emplace(x.uids, tag.uid, |x.items|)
    ensures r.Ok? ==> r.value.events == if current.Some? then x.events + [Direct(|x.items|, ImageScope, current)]
                                        else if inMetadata then x.events + [Direct(|x.items|, UnitScope, None)] else x.events
    ensures r.Ok? && isProperty ==> r.value.items[|x.items|].block == BlockOf(tag) && r.value.items[|x.items|].form == FormOf(tag)
    ensures r.Ok? && !isProperty ==> r.value.items[|x.items|].block.kind == Unknown
    ensures r.Ok? ==> r.value.items[|x.items|].isProperty == isProperty && r.value.items[|x.items|].name == tag.id
    ensures r.Ok? ==> r.value.open == if isProperty && FormOf(tag) == CharacterData then Some(|x.items|) else x.open
    ensures ToOption(r) == EntryAdded(x, tag, isProperty, inMetadata, current, options)
  {
    EntryAddedKeeps(x, tag, isProperty, inMetadata, current, images, options);
    hide ParseLocation, Emplace, UidsOk, EntriesOk;
    if |x.items| >= options.maxMetadata {
      return Err(ResourceLimit);
    }
    if tag.fault != NoFault {
      return Err(CodeOf(tag.fault));
    }
    var noted := NoteRole(x, if isProperty && inMetadata then tag.role else NoRole, images);
    if noted.Err? || (isProperty && tag.location.Some? && (BlockOf(tag).kind == Embedded || BlockOf(tag).kind == Unknown)) {
      return Err(InvalidXisf);
    }
    var scope := if current.Some? then ImageScope else if inMetadata then UnitScope else StandaloneScope;
    if scope != StandaloneScope && |x.events| >= options.maxMetadata {
      return Err(ResourceLimit);
    }
    if InlineProperty(tag, isProperty) && tag.encoding.None? {
      return Err(UnsupportedFeature);
    }
    var e := Entry(isProperty, tag.id, scope, current, if isProperty then FormOf(tag) else AttributeValue,
                   if isProperty then BlockOf(tag) else BlockLocation(Unknown, 0, 0), tag.value.GetOr(""),
                   tag.kind, tag.length, tag.rows, tag.columns);
    var y := PushEntry(noted.value, tag.uid, e);
    return Ok(if isProperty && FormOf(tag) == CharacterData then y.(open := Some(|x.items|)) else y);
  }

  lemma PushEntryKeeps(x: Entries, uid: string, e: Entry, images: nat)
    requires EntriesOk(x, images) && InRange(e.image, images) && (e.scope == ImageScope ==> e.image.Some?)
    ensures EntriesOk(PushEntry(x, uid, e), images)
  {
  }

  predicate InlineProperty(tag: Tag, isProperty: bool) {
    isProperty && BlockOf(tag).kind == InlineData
  }

  /** The entry, its empty block, its uid and the event that binds it, unless it stands alone. */
  function PushEntry(x: Entries, uid: string, e: Entry): Entries {
    var index := |x.items|;
    x.(items := x.items + [e], blocks := x.blocks + [[]], uids := Emplace(x.uids, uid, index),
       events := if e.scope == StandaloneScope then x.events else x.events + [Direct(index, e.scope, e.image)])
  }

  function MetadataReferenceAdded(x: Entries, tag: Tag, scope: Scope, current: Option<nat>, options: HeaderOptions): Option<Entries> {
    if |x.events| >= options.maxMetadata then None else Some(x.(events := x.events + [ByReference(tag.id, scope, current)]))
  }

  method AddMetadataReference(x: Entries, tag: Tag, scope: Scope, current: Option<nat>, ghost images: nat, options: HeaderOptions)
    returns (r: Result<Entries>)
    requires EntriesOk(x, images) && InRange(current, images) && scope != StandaloneScope && (scope == ImageScope ==> current.Some?)
    ensures r.Err? ==> HandlerCode(r.error)
    ensures r.Ok? ==> EntriesOk(r.value, images) && r.value == x.(events := x.events + [ByReference(tag.id, scope, current)])
    ensures ToOption(r) == MetadataReferenceAdded(x, tag, scope, current, options)
  {
    if |x.events| >= options.maxMetadata {
      return Err(ResourceLimit);
    }
    return Ok(x.(events := x.events + [ByReference(tag.id, scope, current)]));
  }

  predicate EntryAllows(x: Entries, text: string, options: HeaderOptions)
    requires x.open.Some? && InRange(x.open, |x.items|)
  {
    Consume(|x.items[x.open.value].value|, |text|, options.maxMetadataValue).Some?
  }

  function WithEntryText(x: Entries, text: string): Entries
    requires x.open.Some? && InRange(x.open, |x.items|)
  {
    var i := x.open.value;
    x.(items := x.items[i := x.items[i].(value := x.items[i].value + text)])
  }

  /** Character data inside a Property that gives its value as text. */
  method EntryText(x: Entries, text: string, ghost images: nat, options: HeaderOptions) returns (r: Result<Entries>)
    requires EntriesOk(x, images) && x.open.Some?
    ensures r.Err? ==> HandlerCode(r.error)
    ensures r.Ok? ==> |r.value.items| == |x.items| && EntriesOk(r.value, images)
    ensures r.Ok? <==> EntryAllows(x, text, options)
    ensures r.Ok? ==> r.value == WithEntryText(x, text)
  {
    var i := x.open.value;
    if Consume(|x.items[i].value|, |text|, options.maxMetadataValue).None? {
      return Err(ResourceLimit);
    }
    return Ok(x.(items := x.items[i := x.items[i].(value := x.items[i].value + text)]));
  }
}
