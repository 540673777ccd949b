/**
 Where the serialized bytes of a block are, as the read planners of an accepted document find it: in
 the list that the header's text has filled, or in the file. Each planner indexes a list of bytes by a
 number that was checked against another list.
 */
module Storage {
  import opened Base
  import opened Locations
  import opened Source
  import opened HeaderLists
  import opened HeaderDraft
  import opened HeaderDocument
  import Mul

  /** A block that is attached, inside the file, or one whose bytes the text gave. */
  function StorageOf(block: BlockLocation, textual: BlockKind, bytes: Bytes, fileSize: U64): (r: Result<BlockSource>)
    ensures r.Ok? <==> if block.kind == Attachment then block.offset + block.size <= fileSize else block.kind == textual
    ensures r.Ok? && r.value.AttachedBlock? ==> r.value.offset == block.offset && r.value.size == block.size
    ensures r.Ok? && r.value.EmbeddedBlock? ==> r.value.bytes == bytes && block.kind == textual
  {
    if block.kind == Attachment then
      if block.offset > fileSize || block.size > fileSize - block.offset then Err(InvalidBlock)
      else Ok(AttachedBlock(block.offset, block.size))
    else if block.kind == textual then Ok(EmbeddedBlock(bytes))
    else Err(UnsupportedFeature)
  }

  /** `plan_image_read`, which does not test the second index. */
  method ImageStorage(doc: Document, ghost rules: ValueRules, fileSize: U64, index: nat) returns (r: Result<BlockSource>)
    requires DocumentOk(doc, rules)
    ensures var x := doc.draft.images;
            && |x.blocks| == |x.items|
            && r == if index >= |x.items| then Err(InvalidArgument)
                    else StorageOf(x.items[index].block, Embedded, x.blocks[index], fileSize)
  {
    ListsMatch(doc, rules);
    hide DocumentOk;
    if index >= |doc.draft.images.items| {
      return Err(InvalidArgument);
    }
    var block := doc.draft.images.items[index].block;
    if block.kind != Attachment && block.kind != Embedded {
      return Err(UnsupportedFeature);
    }
    if block.kind == Attachment && (block.offset > fileSize || block.size > fileSize - block.offset) {
      return Err(InvalidBlock);
    }
    return Ok(if block.kind == Embedded then EmbeddedBlock(doc.draft.images.blocks[index]) else AttachedBlock(block.offset, block.size));
  }

  /** `plan_thumbnail_read`. */
  method ThumbnailStorage(doc: Document, ghost rules: ValueRules, fileSize: U64, index: nat) returns (r: Result<BlockSource>)
    requires DocumentOk(doc, rules)
    ensures var x := doc.draft.thumbnails;
            && |x.blocks| == |x.items|
            && r == if index >= |x.items| then Err(InvalidArgument)
                    else StorageOf(x.items[index].block, Embedded, x.blocks[index], fileSize)
  {
    ListsMatch(doc, rules);
    hide DocumentOk;
    if index >= |doc.draft.thumbnails.items| {
      return Err(InvalidArgument);
    }
    var block := doc.draft.thumbnails.items[index].block;
    if block.kind != Attachment && block.kind != Embedded {
      return Err(UnsupportedFeature);
    }
    if block.kind == Embedded && index >= |doc.draft.thumbnails.blocks| {
      return Err(InternalError);
    }
    if block.kind == Attachment && (block.offset > fileSize || block.size > fileSize - block.offset) {
      return Err(InvalidBlock);
    }
    return Ok(if block.kind == Embedded then EmbeddedBlock(doc.draft.thumbnails.blocks[index]) else AttachedBlock(block.offset,
        block.size));
  }

  /** `plan_icc_profile_read`. */
  method ProfileStorage(doc: Document, ghost rules: ValueRules, fileSize: U64, index: nat) returns (r: Result<BlockSource>)
    requires DocumentOk(doc, rules)
    ensures var x := doc.draft.profiles;
            && |x.blocks| == |x.items|
            && r == if index >= |x.items| then Err(InvalidArgument)
                    else StorageOf(x.items[index], InlineData, x.blocks[index], fileSize)
  {
    ListsMatch(doc, rules);
    hide DocumentOk;
    if index >= |doc.draft.profiles.items| {
      return Err(InvalidArgument);
    }
    var block := doc.draft.profiles.items[index];
    if block.kind != Attachment && block.kind != InlineData {
      return Err(UnsupportedFeature);
    }
    if block.kind == InlineData {
      if index >= |doc.draft.profiles.blocks| {
        return Err(InternalError);
      }
      return Ok(EmbeddedBlock(doc.draft.profiles.blocks[index]));
    }
    if block.offset > fileSize || block.size > fileSize - block.offset {
      return Err(InvalidBlock);
    }
    return Ok(AttachedBlock(block.offset, block.size));
  }

  /** `property_element_layout`: how many bytes an element of this type has; text has no fixed extent. */
  datatype ElementLayout = ElementLayout(size: U64, isText: bool)

  /** Where the bytes of a Property are, and how many its type and extents call for. */
  datatype PropertyPlan = PropertyPlan(source: BlockSource, typedBytes: Option<U64>)

  /** The number of elements that the extents give, if they are those of the type and fit 64 bits. */
  function ElementCount(category: Category, e: Entry): Option<nat> {
    if category == Vector && e.length.Some? then Some(e.length.value)
    else if category == Matrix && e.rows.Some? && e.columns.Some? && e.rows.value * e.columns.value <= MAX_U64 then
      Mul.Monotone(0, e.rows.value, e.columns.value);
      Some(e.rows.value * e.columns.value)
    else None
  }

  /** The bytes that the elements take, or why there is no such number. */
  function TypedBytes(layout: ElementLayout, category: Category, e: Entry): Result<Option<U64>> {
    var count := ElementCount(category, e);
    if layout.isText then Ok(None)
    else if count.None? then Err(InvalidBlock)
    else if count.value * layout.size > MAX_U64 then Err(Overflow)
    else
      Mul.Monotone(0, count.value, layout.size);
      Ok(Some(count.value * layout.size))
  }

  /** The number of bytes is that of the elements, and is there exactly if neither product leaves 64 bits. */
  lemma TypedBytesAreExact(layout: ElementLayout, category: Category, e: Entry, n: U64)
    ensures TypedBytes(layout, category, e) == Ok(Some(n))
       <==> !layout.isText
            && match category
               case Vector => e.length.Some? && n == e.length.value * layout.size
               case Matrix =>
                 && e.rows.Some? && e.columns.Some? && e.rows.value * e.columns.value <= MAX_U64
                 && n == e.rows.value * e.columns.value * layout.size
               case _ => false
    ensures TypedBytes(layout, category, e) == Ok(None) <==> layout.isText
  {
  }

  /** The storage and the typed extent together; the extent is judged first. */
  function PropertyPlanOf(layout: Option<ElementLayout>, category: Category, e: Entry, bytes: Bytes, fileSize: U64): Result<PropertyPlan> {
    if e.block.kind != Attachment && e.block.kind != InlineData then Err(UnsupportedFeature)
    else if layout.None? then Err(UnsupportedFeature)
    else
      var typed, stored := TypedBytes(layout.value, category, e), StorageOf(e.block, InlineData, bytes, fileSize);
      if typed.Err? then Err(typed.error) else if stored.Err? then Err(stored.error) else Ok(PropertyPlan(stored.value, typed.value))
  }

  /** The extent, multiplied with the checks of the source. */
  method TypedExtent(layout: ElementLayout, category: Category, e: Entry) returns (r: Result<Option<U64>>)
    ensures r == TypedBytes(layout, category, e)
  {
    if layout.isText {
      return Ok(None);
    }
    var count: U64 := 0;
    var rowsAndColumns: Option<U64> := None;
    if e.rows.Some? && e.columns.Some? {
      CheckedMultiplyExact(e.rows.value, e.columns.value);
      rowsAndColumns := CheckedMultiply(e.rows.value, e.columns.value);
    }
    if category == Vector && e.length.Some? {
      count := e.length.value;
    } else if category == Matrix && rowsAndColumns.Some? {
      count := rowsAndColumns.value;
    } else {
      return Err(InvalidBlock);
    }
    CheckedMultiplyExact(count, layout.size);
    var bytes := CheckedMultiply(count, layout.size);
    return if bytes.Some? then Ok(Some(bytes.value)) else Err(Overflow);
  }

  /** `plan_property_read`: a FITS keyword, or a Property whose value is not a block, has no plan. */
  method PropertyStorage(doc: Document, rules: ValueRules, layouts: string -> Option<ElementLayout>, fileSize: U64, index: nat)
    returns (r: Result<PropertyPlan>)
    requires DocumentOk(doc, rules)
    ensures var x := doc.draft.metadata;
            && |x.blocks| == |x.items|
            && r == if index >= |x.items| || !x.items[index].isProperty || x.items[index].form != DataBlock then Err(InvalidArgument)
                    else PropertyPlanOf(layouts(x.items[index].kind), rules.category(x.items[index].kind), x.items[index],
                                        x.blocks[index], fileSize)
  {
    ListsMatch(doc, rules);
    hide DocumentOk, TypedBytes;
    if index >= |doc.draft.metadata.items| {
      return Err(InvalidArgument);
    }
    var entry := doc.draft.metadata.items[index];
    if !entry.isProperty || entry.form != DataBlock {
      return Err(InvalidArgument);
    }
    if entry.block.kind != Attachment && entry.block.kind != InlineData {
      return Err(UnsupportedFeature);
    }
    var layout := layouts(entry.kind);
    if layout.None? {
      return Err(UnsupportedFeature);
    }
    var typed := TypedExtent(layout.value, rules.category(entry.kind), entry);
    if typed.Err? {
      return Err(typed.error);
    }
    if entry.block.kind == InlineData {
      if index >= |doc.draft.metadata.blocks| {
        return Err(InternalError);
      }
      return Ok(PropertyPlan(EmbeddedBlock(doc.draft.metadata.blocks[index]), typed.value));
    }
    if entry.block.offset > fileSize || entry.block.size > fileSize - entry.block.offset {
      return Err(InvalidBlock);
    }
    return Ok(PropertyPlan(AttachedBlock(entry.block.offset, entry.block.size), typed.value));
  }

  lemma ListsMatch(doc: Document, rules: ValueRules)
    requires DocumentOk(doc, rules)
    ensures |doc.draft.images.blocks| == |doc.draft.images.items| && |doc.draft.thumbnails.blocks| == |doc.draft.thumbnails.items|
    ensures |doc.draft.profiles.blocks| == |doc.draft.profiles.items| && |doc.draft.metadata.blocks| == |doc.draft.metadata.items|
  {
    hide AllOk, NoDuplicates, TableComplete, ReferencesOk, MetadataBindingOk;
  }
}
