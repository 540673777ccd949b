/** The draft of a document: all lists together, the open indices beside the open elements, and where text goes. */
module HeaderDraft {
  import opened Base
  import opened HeaderStack
  import opened Locations
  import opened Ranges
  import opened HeaderLists
  import E = EncodedText

  // ---------------------------------------------------------------- open indices and open elements

  /** Pushing an element for which the handler opens no index. */
  lemma LinkPlain(outer: seq<Name>, n: Name, images: Images, thumbnails: Thumbnails, tables: Tables, x: Encoded)
    requires GoodStack(outer) && Admits(outer, n) && !Tracked(n) && NoneOpen(x)
    requires Linked(outer, images, thumbnails, tables, x)
    ensures GoodStack(outer + [n]) && Linked(outer + [n], images, thumbnails, tables, x)
  {
    PushKeeps(outer, n);
  }

  /** Pushing a Property or ICCProfile whose block is inline. */
  lemma LinkInline(outer: seq<Name>, n: Name, images: Images, thumbnails: Thumbnails, tables: Tables, x: Encoded, y: Encoded)
    requires GoodStack(outer) && Admits(outer, n) && NoneOpen(x) && y.image.None? && y.thumbnail.None?
    requires (n == Property && y.profile.None?) || (n == IccProfile && y.metadata.None?)
    requires Linked(outer, images, thumbnails, tables, x)
    ensures GoodStack(outer + [n]) && Linked(outer + [n], images, thumbnails, tables, y)
  {
    PushKeeps(outer, n);
  }

  lemma LinkImage(outer: seq<Name>, x: Images, y: Images, thumbnails: Thumbnails, tables: Tables, encoded: Encoded)
    requires GoodStack(outer) && Admits(outer, Image) && NoneOpen(encoded) && Linked(outer, x, thumbnails, tables, encoded)
    ensures x.stack == []
    ensures y.stack != [] ==> GoodStack(outer + [Image]) && Linked(outer + [Image], y, thumbnails, tables, encoded)
  {
    PushKeeps(outer, Image);
  }

  lemma LinkThumbnail(outer: seq<Name>, images: Images, x: Thumbnails, y: Thumbnails, tables: Tables, encoded: Encoded)
    requires GoodStack(outer) && Admits(outer, Thumbnail) && NoneOpen(encoded) && Linked(outer, images, x, tables, encoded)
    ensures x.open.None?
    ensures y.open.Some? ==> GoodStack(outer + [Thumbnail]) && Linked(outer + [Thumbnail], images, y, tables, encoded)
  {
    PushKeeps(outer, Thumbnail);
  }

  lemma LinkTable(outer: seq<Name>, images: Images, thumbnails: Thumbnails, x: Tables, y: Tables, encoded: Encoded)
    requires GoodStack(outer) && Admits(outer, Table) && NoneOpen(encoded) && Linked(outer, images, thumbnails, x, encoded)
    ensures x.openRow.None? && x.openCell.None?
    ensures y.open.Some? && y.openStructure == x.openStructure && y.openRow == x.openRow && y.openCell == x.openCell ==>
              GoodStack(outer + [Table]) && Linked(outer + [Table], images, thumbnails, y, encoded)
  {
    PushKeeps(outer, Table);
  }

  lemma LinkStructure(outer: seq<Name>, images: Images, thumbnails: Thumbnails, x: Tables, y: Tables, encoded: Encoded)
    requires GoodStack(outer) && Admits(outer, Structure) && NoneOpen(encoded) && Linked(outer, images, thumbnails, x, encoded)
    ensures x.openStructure.None?
    ensures y.openStructure.Some? && y.open == x.open && y.openRow == x.openRow && y.openCell == x.openCell ==>
              GoodStack(outer + [Structure]) && Linked(outer + [Structure], images, thumbnails, y, encoded)
  {
    PushKeeps(outer, Structure);
  }

  lemma LinkRow(outer: seq<Name>, images: Images, thumbnails: Thumbnails, x: Tables, y: Tables, encoded: Encoded)
    requires GoodStack(outer) && outer != [] && Top(outer) == Table && x.openRow.None? && NoneOpen(encoded)
    requires Linked(outer, images, thumbnails, x, encoded)
    ensures Admits(outer, Row) && x.open.Some? && x.openCell.None?
    ensures y.openRow.Some? && y.open == x.open && y.openStructure == x.openStructure && y.openCell == x.openCell ==>
              GoodStack(outer + [Row]) && Linked(outer + [Row], images, thumbnails, y, encoded)
  {
    PushKeeps(outer, Row);
    NothingInside(outer);
  }

  lemma LinkCell(outer: seq<Name>, images: Images, thumbnails: Thumbnails, x: Tables, y: Tables, encoded: Encoded)
    requires GoodStack(outer) && outer != [] && Top(outer) == Row && x.openCell.None? && NoneOpen(encoded)
    requires Linked(outer, images, thumbnails, x, encoded)
    ensures Admits(outer, Cell) && x.openRow.Some?
    ensures y.openCell.Some? && y.open == x.open && y.openStructure == x.openStructure && y.openRow == x.openRow ==>
              GoodStack(outer + [Cell]) && Linked(outer + [Cell], images, thumbnails, y, encoded)
  {
    PushKeeps(outer, Cell);
  }

  lemma LinkData(
    outer: seq<Name>, images: Images, images': Images, thumbnails: Thumbnails, thumbnails': Thumbnails, tables: Tables, x: Encoded,
        y: Encoded)
    requires GoodStack(outer) && outer != [] && NoneOpen(x) && Linked(outer, images, thumbnails, tables, x)
    requires images'.stack == images.stack && thumbnails'.open == thumbnails.open
    requires y.metadata.None? && y.profile.None? && (y.image.Some? || y.thumbnail.Some?)
    ensures Admits(outer, Data)
    ensures GoodStack(outer + [Data]) && Linked(outer + [Data], images', thumbnails', tables, y)
  {
    PushKeeps(outer, Data);
  }

  /** Closing the innermost element: the handler must have closed the index that stood for it, and no other. */
  lemma Unlink(
    s: seq<Name>, images: Images, images': Images, thumbnails: Thumbnails, thumbnails': Thumbnails, tables: Tables, tables': Tables,
    x: Encoded, y: Encoded)
    requires GoodStack(s) && s != [] && Linked(s, images, thumbnails, tables, x)
    ensures (Top(s) == Image ==> images.stack != []) && (Top(s) == Thumbnail ==> thumbnails.open.Some?)
    ensures (Top(s) == Table ==> tables.open.Some? && tables.openRow.None?) && (Top(s) == Structure ==> tables.openStructure.Some?)
    ensures (Top(s) == Row ==> tables.openRow.Some? && tables.openCell.None?) && (Top(s) == Cell ==> tables.openCell.Some?)
    ensures Top(s) == Data ==> x.image.Some? || x.thumbnail.Some?
    ensures (&& NoneOpen(y) && (images'.stack == [] <==> Top(s) == Image || images.stack == [])
             && (thumbnails'.open.Some? <==> Top(s) != Thumbnail && thumbnails.open.Some?)
             && (tables'.open.Some? <==> Top(s) != Table && tables.open.Some?)
             && (tables'.openStructure.Some? <==> Top(s) != Structure && tables.openStructure.Some?)
             && (tables'.openRow.Some? <==> Top(s) != Row && tables.openRow.Some?)
             && (tables'.openCell.Some? <==> Top(s) != Cell && tables.openCell.Some?))
            ==> GoodStack(s[..|s| - 1]) && Linked(s[..|s| - 1], images', thumbnails', tables', y)
  {
    PopKeeps(s);
  }

  // ---------------------------------------------------------------- the draft of a document

  datatype Draft = Draft(
    images: Images,
    metadata: Entries,
    profiles: Profiles,
    ancillaries: Ancillaries,
    thumbnails: Thumbnails,
    tables: Tables,
    encoded: Encoded,
    coreUids: set<string>,
    references: seq<string>,
    thumbnailReferences: seq<string>)

  predicate ListsOk(d: Draft, options: HeaderOptions) {
    && ImagesOk(d.images)
    && EntriesOk(d.metadata, |d.images.items|)
    && ProfilesOk(d.profiles, |d.images.items|)
    && AncillariesOk(d.ancillaries, |d.images.items|)
    && ThumbnailsOk(d.thumbnails, |d.images.items|)
    && TablesOk(d.tables, |d.images.items|)
    && EncodedOk(d.encoded, options, d.images.blocks, d.metadata.blocks, d.profiles.blocks, d.thumbnails.blocks)
    && SeenOk(d.encoded, d.images.seen, d.thumbnails.seen)
  }

  /** The open block of an Image or Thumbnail is that of its one Data. */
  predicate SeenOk(x: Encoded, images: seq<bool>, thumbnails: seq<bool>) {
    && (x.image.Some? ==> x.image.value < |images| && images[x.image.value])
    && (x.thumbnail.Some? ==> x.thumbnail.value < |thumbnails| && thumbnails[x.thumbnail.value])
  }

  /** The lists agree with themselves, with each other and with the elements that are open. */
  predicate Consistent(s: seq<Name>, d: Draft, options: HeaderOptions) {
    GoodStack(s) && Linked(s, d.images, d.thumbnails, d.tables, d.encoded) && ListsOk(d, options)
  }

  /** How many objects of each kind there are. */
  datatype Tally = Tally(
    images: nat, entries: nat, profiles: nat, ancillaries: nat, thumbnails: nat, tables: nat, structures: nat)

  function TallyOf(d: Draft): Tally {
    Tally(|d.images.items|, |d.metadata.items|, |d.profiles.items|, d.ancillaries.count, |d.thumbnails.items|, |d.tables.items|,
          |d.tables.structures|)
  }

  /** One more for the element with this name. */
  function Counted(t: Tally, n: Name): Tally {
    match n
    case Image => t.(images := t.images + 1)
    case Property => t.(entries := t.entries + 1)
    case FitsKeyword => t.(entries := t.entries + 1)
    case IccProfile => t.(profiles := t.profiles + 1)
    case Ancillary => t.(ancillaries := t.ancillaries + 1)
    case Thumbnail => t.(thumbnails := t.thumbnails + 1)
    case Table => t.(tables := t.tables + 1)
    case Structure => t.(structures := t.structures + 1)
    case _ => t
  }

  // ---------------------------------------------------------------- encoded blocks

  /** Where the bytes of one encoded block are collected. */
  datatype Slot = OfImage(index: nat) | OfEntry(index: nat) | OfProfile(index: nat) | OfThumbnail(index: nat)

  /** Whether the block is given by the header's text, as far as the header has been read. */
  predicate InText(d: Draft, slot: Slot) {
    match slot
    case OfImage(i) => i < |d.images.blocks| && i < |d.images.seen| && d.images.seen[i]
    case OfThumbnail(i) => i < |d.thumbnails.blocks| && i < |d.thumbnails.seen| && d.thumbnails.seen[i]
    case OfProfile(i) => i < |d.profiles.blocks| && i < |d.profiles.items| && d.profiles.items[i].kind == InlineData
    case OfEntry(i) => i < |d.metadata.blocks| && i < |d.metadata.items| && d.metadata.items[i].block.kind == InlineData
  }

  function BlockIn(d: Draft, slot: Slot): Bytes
    requires InText(d, slot)
  {
    match slot
    case OfImage(i) => d.images.blocks[i]
    case OfThumbnail(i) => d.thumbnails.blocks[i]
    case OfProfile(i) => d.profiles.blocks[i]
    case OfEntry(i) => d.metadata.blocks[i]
  }

  function OpenSlot(x: Encoded): Option<Slot> {
    if x.metadata.Some? then Some(OfEntry(x.metadata.value))
    else if x.profile.Some? then Some(OfProfile(x.profile.value))
    else if x.thumbnail.Some? then Some(OfThumbnail(x.thumbnail.value))
    else if x.image.Some? then Some(OfImage(x.image.value))
    else None
  }

  /** Every block but the open one is as it was. */
  ghost predicate KeepsBlocks(d: Draft, e: Draft) {
    forall slot | InText(e, slot) && OpenSlot(e.encoded) != Some(slot) :: InText(d, slot) && BlockIn(e, slot) == BlockIn(d, slot)
  }

  predicate SameBlocks(d: Draft, e: Draft) {
    && e.images.blocks == d.images.blocks && e.images.seen == d.images.seen
    && e.thumbnails.blocks == d.thumbnails.blocks && e.thumbnails.seen == d.thumbnails.seen
    && e.profiles.blocks == d.profiles.blocks && e.profiles.items == d.profiles.items
    && e.metadata.blocks == d.metadata.blocks && |e.metadata.items| == |d.metadata.items|
    && forall k | 0 <= k < |d.metadata.items| :: e.metadata.items[k].block == d.metadata.items[k].block
  }

  lemma SameBlocksKeeps(d: Draft, e: Draft)
    requires SameBlocks(d, e)
    ensures KeepsBlocks(d, e)
  {
  }

  lemma TablesHaveNoBlocks(d: Draft, x: Tables)
    ensures SameBlocks(d, d.(tables := x))
  {
  }

  /** An image more, whose Data is still to come, or the Data of one. */
  predicate ImagesGrow(x: Images, y: Images, open: Option<nat>) {
    && x.blocks <= y.blocks
    && forall i: nat | i < |y.seen| && y.seen[i] && open != Some(i) :: i < |x.seen| && x.seen[i]
  }

  predicate ThumbnailsGrow(x: Thumbnails, y: Thumbnails, open: Option<nat>) {
    && x.blocks <= y.blocks
    && forall i: nat | i < |y.seen| && y.seen[i] && open != Some(i) :: i < |x.seen| && x.seen[i]
  }

  /** A profile more; one with an inline block opens it. */
  predicate ProfilesGrow(x: Profiles, y: Profiles, open: Option<nat>) {
    && x.blocks <= y.blocks && x.items <= y.items
    && forall i | |x.items| <= i < |y.items| && y.items[i].kind == InlineData :: open == Some(i)
  }

  predicate EntriesGrow(x: Entries, y: Entries, open: Option<nat>) {
    && x.blocks <= y.blocks && x.items <= y.items
    && forall i | |x.items| <= i < |y.items| && y.items[i].block.kind == InlineData :: open == Some(i)
  }

  predicate BlocksGrow(d: Draft, e: Draft) {
    && ImagesGrow(d.images, e.images, e.encoded.image) && ThumbnailsGrow(d.thumbnails, e.thumbnails, e.encoded.thumbnail)
    && ProfilesGrow(d.profiles, e.profiles, e.encoded.profile) && EntriesGrow(d.metadata, e.metadata, e.encoded.metadata)
  }

  lemma GrowingKeeps(d: Draft, e: Draft, options: HeaderOptions)
    requires ListsOk(d, options) && ListsOk(e, options) && BlocksGrow(d, e)
    ensures KeepsBlocks(d, e)
  {
    hide TablesOk, AncillariesOk, UidsOk, EventsOk, SeenOk;
    forall slot | InText(e, slot) && OpenSlot(e.encoded) != Some(slot)
      ensures InText(d, slot) && BlockIn(e, slot) == BlockIn(d, slot)
    {
    }
  }

  /** The element that gives a block, and its number among its kind. */
  predicate Gives(slot: Slot, outer: seq<Name>, n: Name, t: Tally) {
    match slot
    case OfImage(i) => n == Data && outer != [] && Top(outer) == Image && i + 1 == t.images
    case OfThumbnail(i) => n == Data && outer != [] && Top(outer) == Thumbnail && i + 1 == t.thumbnails
    case OfProfile(i) => n == IccProfile && i + 1 == t.profiles
    case OfEntry(i) => n == Property && i + 1 == t.entries
  }

  /** A block that an element has opened belongs to this element, and nothing of it has been read. */
  predicate Begins(outer: seq<Name>, tag: Tag, d: Draft) {
    var slot := OpenSlot(d.encoded);
    slot.Some? ==>
      && Gives(slot.value, outer, tag.name, TallyOf(d))
      && tag.encoding.Some? && d.encoded.encoding == tag.encoding && d.encoded.decoding == E.Fresh
  }

  predicate OwnsBlock(n: Name) {
    n == IccProfile || n == Thumbnail || n == Data || n == Image || n == Property || n == FitsKeyword
  }

  lemma ConsistentLists(s: seq<Name>, d: Draft, options: HeaderOptions)
    requires Consistent(s, d, options)
    ensures ListsOk(d, options)
  {
  }

  /** The open block may end where its decoder stands. */
  predicate EndsBlock(d: Draft, options: HeaderOptions) {
    d.encoded.encoding.Some? && E.Finished(RulesOf(d.encoded, options), d.encoded.decoding).Some?
  }

  function Parent(outer: seq<Name>): Name {
    if outer == [] then Foreign("") else Top(outer)
  }

  function CurrentImage(d: Draft): Option<nat> {
    if d.images.stack == [] then None else Some(d.images.stack[|d.images.stack| - 1])
  }

  /** A direct child of the root or of an Image that is open. */
  predicate RootOrImageChild(outer: seq<Name>, d: Draft) {
    (|outer| == 1 && Parent(outer) == Xisf) || (|outer| == 2 && Parent(outer) == Image && CurrentImage(d).Some?)
  }

  lemma CurrentInRange(d: Draft)
    requires ImagesOk(d.images)
    ensures InRange(CurrentImage(d), |d.images.items|)
  {
  }

  /** An element that is let in without opening anything. */
  lemma PlainIsConsistent(outer: seq<Name>, n: Name, d: Draft, options: HeaderOptions)
    requires Consistent(outer, d, options) && NoneOpen(d.encoded) && !Tracked(n) && Admits(outer, n)
    ensures Consistent(outer + [n], d, options)
  {
    hide GoodStack, Linked, ListsOk;
    LinkPlain(outer, n, d.images, d.thumbnails, d.tables, d.encoded);
  }

  lemma SameLinks(s: seq<Name>, images: Images, thumbnails: Thumbnails, x: Tables, y: Tables, encoded: Encoded)
    requires SameOpen(y, x)
    ensures Linked(s, images, thumbnails, y, encoded) <==> Linked(s, images, thumbnails, x, encoded)
  {
  }

  /** While no block is open, the lists of blocks may grow. */
  lemma NoneOpenAnywhere(
    x: Encoded, options: HeaderOptions, a: seq<Bytes>, b: seq<Bytes>, c: seq<Bytes>, d: seq<Bytes>,
    a': seq<Bytes>, b': seq<Bytes>, c': seq<Bytes>, d': seq<Bytes>)
    requires EncodedOk(x, options, a, b, c, d) && NoneOpen(x)
    ensures EncodedOk(x, options, a', b', c', d')
  {
  }

  /** One more image makes no index invalid. */
  lemma MoreImages(d: Draft, n: nat, m: nat)
    requires n <= m
    requires EntriesOk(d.metadata, n) && ProfilesOk(d.profiles, n) && AncillariesOk(d.ancillaries, n) && ThumbnailsOk(d.thumbnails, n)
    requires TablesOk(d.tables, n)
    ensures EntriesOk(d.metadata, m) && ProfilesOk(d.profiles, m) && AncillariesOk(d.ancillaries, m) && ThumbnailsOk(d.thumbnails, m)
    ensures TablesOk(d.tables, m)
  {
    hide TablesOpen, UidsOk;
  }

  /** A fresh decoder for the block that an element opens. */
  function Opened(encoding: E.Encoding, image: Option<nat>, metadata: Option<nat>, profile: Option<nat>, thumbnail: Option<nat>): Encoded {
    Encoded(image, metadata, profile, thumbnail, Some(encoding), E.Fresh)
  }

  lemma ProfileBlocks(x: Profiles, images: nat)
    requires ProfilesOk(x, images)
    ensures |x.blocks| == |x.items|
  {
  }

  lemma EntryBlocks(x: Entries, images: nat)
    requires EntriesOk(x, images)
    ensures |x.blocks| == |x.items| && InRange(x.open, |x.items|)
  {
  }

  /** A Property with an inline block opens that block. */
  method PlaceEntry(outer: seq<Name>, d: Draft, metadata: Entries, tag: Tag, isProperty: bool, options: HeaderOptions)
    returns (next: Draft)
    requires Consistent(outer, d, options) && NoneOpen(d.encoded) && outer != []
    requires EntriesOk(metadata, |d.images.items|) && metadata.blocks == d.metadata.blocks + [[]]
    requires InlineProperty(tag, isProperty) ==> tag.encoding.Some?
    ensures Consistent(outer + [if isProperty then Property else FitsKeyword], next, options)
    ensures next == d.(metadata := metadata, encoded := next.encoded)
    ensures next.encoded == if InlineProperty(tag, isProperty) then Opened(tag.encoding.value, None, Some(|d.metadata.items|), None, None)
                            else d.encoded
  {
    if InlineProperty(tag, isProperty) {
      next := d.(metadata := metadata, encoded := Opened(tag.encoding.value, None, Some(|d.metadata.items|), None, None));
      InlineEntryIsConsistent(outer, d, next, tag.encoding.value, options);
    } else {
      hide GoodStack, Linked, ImagesOk, EntriesOk, ProfilesOk, AncillariesOk, ThumbnailsOk, TablesOk;
      next := d.(metadata := metadata);
      PlainIsConsistent(outer, if isProperty then Property else FitsKeyword, next, options);
    }
  }

  lemma InlineEntryIsConsistent(outer: seq<Name>, d: Draft, e: Draft, encoding: E.Encoding, options: HeaderOptions)
    requires Consistent(outer, d, options) && NoneOpen(d.encoded) && outer != []
    requires EntriesOk(e.metadata, |d.images.items|) && e.metadata.blocks == d.metadata.blocks + [[]]
    requires e == d.(metadata := e.metadata, encoded := Opened(encoding, None, Some(|d.metadata.items|), None, None))
    ensures Consistent(outer + [Property], e, options)
  {
    EntryBlocks(d.metadata, |d.images.items|);
    hide GoodStack, Linked, ImagesOk, EntriesOk, ProfilesOk, AncillariesOk, ThumbnailsOk, TablesOk;
    LinkInline(outer, Property, d.images, d.thumbnails, d.tables, d.encoded, e.encoded);
  }

  lemma ProfileOpens(outer: seq<Name>, tag: Tag, d: Draft, e: Draft)
    requires NoneOpen(d.encoded) && tag.name == IccProfile && e == d.(profiles := e.profiles, encoded := e.encoded)
    requires e.profiles.items == d.profiles.items + [BlockOf(tag)] && e.profiles.blocks == d.profiles.blocks + [[]]
    requires if BlockOf(tag).kind == InlineData
             then tag.encoding.Some? && e.encoded == Opened(tag.encoding.value, None, None, Some(|d.profiles.items|), None)
             else e.encoded == d.encoded
    ensures BlocksGrow(d, e) && Begins(outer, tag, e)
  {
    hide ParseLocation;
  }

  lemma EntryOpens(outer: seq<Name>, tag: Tag, isProperty: bool, d: Draft, e: Draft)
    requires NoneOpen(d.encoded) && tag.name == (if isProperty then Property else FitsKeyword)
    requires e == d.(metadata := e.metadata, encoded := e.encoded)
    requires |e.metadata.items| == |d.metadata.items| + 1 && e.metadata.items[..|d.metadata.items|] == d.metadata.items
    requires e.metadata.blocks == d.metadata.blocks + [[]]
    requires e.metadata.items[|d.metadata.items|].block.kind == InlineData <==> InlineProperty(tag, isProperty)
    requires if InlineProperty(tag, isProperty)
             then tag.encoding.Some? && e.encoded == Opened(tag.encoding.value, None, Some(|d.metadata.items|), None, None)
             else e.encoded == d.encoded
    ensures BlocksGrow(d, e) && Begins(outer, tag, e)
  {
    hide ParseLocation;
  }

  lemma ImageDataOpens(outer: seq<Name>, tag: Tag, d: Draft, e: Draft)
    requires NoneOpen(d.encoded) && tag.name == Data && outer != [] && Top(outer) == Image && tag.encoding.Some?
    requires d.images.items != []
    requires e == d.(images := e.images, encoded := Opened(tag.encoding.value, Some(|d.images.items| - 1), None, None, None))
    requires |d.images.seen| == |d.images.items| == |e.images.items| && e.images.blocks == d.images.blocks
    requires e.images.seen == d.images.seen[|d.images.items| - 1 := true]
    ensures BlocksGrow(d, e) && Begins(outer, tag, e)
  {
  }

  lemma ThumbnailDataOpens(outer: seq<Name>, tag: Tag, d: Draft, e: Draft)
    requires NoneOpen(d.encoded) && tag.name == Data && outer != [] && Top(outer) == Thumbnail && tag.encoding.Some?
    requires d.thumbnails.items != []
    requires e == d.(thumbnails := e.thumbnails, encoded := Opened(tag.encoding.value, None, None, None, Some(|d.thumbnails.items| - 1)))
    requires |d.thumbnails.seen| == |d.thumbnails.items| == |e.thumbnails.items|
    requires e.thumbnails.blocks == d.thumbnails.blocks && e.thumbnails.seen == d.thumbnails.seen[|d.thumbnails.items| - 1 := true]
    ensures BlocksGrow(d, e) && Begins(outer, tag, e)
  {
  }

  /** Nothing changes in the blocks when an element has none. */
  lemma OtherOpens(outer: seq<Name>, tag: Tag, d: Draft, e: Draft)
    requires NoneOpen(d.encoded) && SameBlocks(d, e) && e.encoded == d.encoded
    ensures KeepsBlocks(d, e) && Begins(outer, tag, e)
  {
    SameBlocksKeeps(d, e);
  }

  lemma UidsDoNotMatter(d: Draft, d': Draft, e: Draft)
    requires d' == d.(coreUids := d'.coreUids) && KeepsBlocks(d', e)
    ensures KeepsBlocks(d, e)
  {
    forall slot | InText(e, slot) && OpenSlot(e.encoded) != Some(slot)
      ensures InText(d, slot) && BlockIn(e, slot) == BlockIn(d, slot)
    {
      assert InText(d', slot);
    }
  }

  // ---------------------------------------------------------------- text and closing tags

  function RulesOf(x: Encoded, options: HeaderOptions): E.Rules
    requires x.encoding.Some?
  {
    E.Rules(x.encoding.value, options.maxEncoded, OutputLimit(x, options))
  }

  /** `decode_embedded_text`: the decoder goes on where it stopped. */
  method DecodeMore(x: Encoded, text: string, options: HeaderOptions) returns (r: Result<E.Progress>)
    requires x.encoding.Some? && x.decoding.Going? && E.InStep(x.decoding)
    requires |x.decoding.output| <= OutputLimit(x, options) && 0 <= x.decoding.count <= options.maxEncoded
    ensures r.Err? ==> HandlerCode(r.error)
    ensures var next := E.Feed(RulesOf(x, options), x.decoding, text);
            if next.Going? then
              && r == Ok(next)
              && E.InStep(next) && |next.output| <= OutputLimit(x, options) && 0 <= next.count <= options.maxEncoded
            else r.Err?
  {
    var decoder := new E.Decoder.Resume(RulesOf(x, options), x.decoding);
    decoder.DecodeText(text);
    if decoder.error.Some? {
      return Err(decoder.error.value);
    }
    return Ok(decoder.View());
  }

  /** The blocks after the open one has grown to `bytes`. */
  function WithBytes(d: Draft, bytes: Bytes): Draft {
    var x := d.encoded;
    if x.metadata.Some? && x.metadata.value < |d.metadata.blocks| then
      d.(metadata := d.metadata.(blocks := d.metadata.blocks[x.metadata.value := bytes]))
    else if x.profile.Some? && x.profile.value < |d.profiles.blocks| then
      d.(profiles := d.profiles.(blocks := d.profiles.blocks[x.profile.value := bytes]))
    else if x.thumbnail.Some? && x.thumbnail.value < |d.thumbnails.blocks| then
      d.(thumbnails := d.thumbnails.(blocks := d.thumbnails.blocks[x.thumbnail.value := bytes]))
    else if x.image.Some? && x.image.value < |d.images.blocks| then
      d.(images := d.images.(blocks := d.images.blocks[x.image.value := bytes]))
    else d
  }

  lemma WithBytesKeeps(d: Draft, bytes: Bytes, options: HeaderOptions)
    requires ListsOk(d, options)
    ensures var e := WithBytes(d, bytes);
            && ImagesOk(e.images) && EntriesOk(e.metadata, |e.images.items|) && ProfilesOk(e.profiles, |e.images.items|)
            && AncillariesOk(e.ancillaries, |e.images.items|) && ThumbnailsOk(e.thumbnails, |e.images.items|)
            && TablesOk(e.tables, |e.images.items|) && SeenOk(e.encoded, e.images.seen, e.thumbnails.seen)
            && e.images.stack == d.images.stack && e.thumbnails.open == d.thumbnails.open
            && e.tables == d.tables && e.encoded == d.encoded && TallyOf(e) == TallyOf(d)
  {
    hide UidsOk, TablesOk, AncillariesOk, MetadataEventOk;
  }

  lemma WithBytesOpen(d: Draft, bytes: Bytes, options: HeaderOptions)
    requires ListsOk(d, options) && !NoneOpen(d.encoded)
    ensures var e := WithBytes(d, bytes);
            OpenBytes(d.encoded, e.images.blocks, e.metadata.blocks, e.profiles.blocks, e.thumbnails.blocks) == Some(bytes)
  {
    hide ImagesOk, EntriesOk, ProfilesOk, ThumbnailsOk, TablesOk, AncillariesOk;
  }

  lemma SameOpenBlock(x: Encoded, next: E.Progress, s: seq<Name>, d: Draft, e: Draft)
    requires x == d.encoded && e.encoded == x.(decoding := next)
    requires e.images.stack == d.images.stack && e.thumbnails.open == d.thumbnails.open && e.tables == d.tables
    requires SeenOk(x, e.images.seen, e.thumbnails.seen)
    ensures SeenOk(e.encoded, e.images.seen, e.thumbnails.seen)
    ensures Linked(s, d.images, d.thumbnails, d.tables, d.encoded) ==> Linked(s, e.images, e.thumbnails, e.tables, e.encoded)
    ensures OpenBytes(e.encoded, e.images.blocks, e.metadata.blocks, e.profiles.blocks, e.thumbnails.blocks)
         == OpenBytes(x, e.images.blocks, e.metadata.blocks, e.profiles.blocks, e.thumbnails.blocks)
  {
  }

  const Closed: Encoded := Encoded(None, None, None, None, None, E.Fresh)

  lemma BlockIsOnTop(s: seq<Name>, d: Draft)
    requires Linked(s, d.images, d.thumbnails, d.tables, d.encoded) && !NoneOpen(d.encoded)
    ensures s != [] && (Top(s) == Data || Top(s) == Property || Top(s) == IccProfile)
  {
  }

  /** Closing an element that no open index stands for. */
  lemma PlainCloses(s: seq<Name>, d: Draft, options: HeaderOptions)
    requires Consistent(s, d, options) && s != [] && NoneOpen(d.encoded) && !Tracked(Top(s))
    ensures Consistent(s[..|s| - 1], d, options)
  {
    Unlink(s, d.images, d.images, d.thumbnails, d.thumbnails, d.tables, d.tables, d.encoded, d.encoded);
    hide GoodStack, Linked, ListsOk;
  }

  lemma DataIsOpen(s: seq<Name>, d: Draft)
    requires Linked(s, d.images, d.thumbnails, d.tables, d.encoded) && s != []
    ensures Top(s) == Data ==> !NoneOpen(d.encoded)
  {
  }

  lemma PropertyBlock(s: seq<Name>, d: Draft)
    requires Linked(s, d.images, d.thumbnails, d.tables, d.encoded) && s != []
    ensures Top(s) == Property ==> d.encoded.metadata.Some? || NoneOpen(d.encoded)
    ensures Top(s) == IccProfile ==> d.encoded.profile.Some? || NoneOpen(d.encoded)
    ensures Top(s) == Data || Top(s) == Property || Top(s) == IccProfile || NoneOpen(d.encoded)
  {
  }

  // ---------------------------------------------------------------- opening tags

  predicate IsCore(n: Name) {
    || n == Property || n == Structure || n == Table || n == Metadata || n == Image || n == FitsKeyword
    || n == IccProfile || n == Ancillary || n == Thumbnail
  }

  // ---------------------------------------------------------------- where text goes

  function AppendedTo(x: Extensions, index: nat, text: string): Extensions
    requires index < |x.items|
  {
    x.(bytes := x.bytes + |text|, items := x.items[index := x.items[index].(text := x.items[index].text + text)])
  }

  /** The extension element that is open, if the innermost element is one. */
  function OpenExtension(s: Stack): Option<nat> {
    if s.extensions == [] then None else s.extensions[|s.extensions| - 1]
  }

  /** The indices that text is stored by are in range. */
  predicate TextReady(s: Stack, d: Draft, extensions: nat) {
    TablesOpen(d.tables) && InRange(d.metadata.open, |d.metadata.items|) && InRange(OpenExtension(s), extensions)
  }

  lemma TextIsReady(s: Stack, depth: nat, d: Draft, extensions: nat, options: HeaderOptions)
    requires Heights(s, depth, extensions) && Consistent(s.elements, d, options)
    ensures TextReady(s, d, extensions)
  {
    hide GoodStack, Linked, ImagesOk, ProfilesOk, AncillariesOk, ThumbnailsOk, TableListsOk, EncodedOk, UidsOk;
  }

  /** Text in an element that does not take it may only be white space. */
  predicate RefusesText(s: seq<Name>, d: Draft, depth: nat) {
    && s != []
    && (|| Top(s) == Ancillary || Top(s) == IccProfile
        || (d.metadata.open.None? &&
            (|| (depth == 1 && Top(s) == Xisf)
             || d.thumbnails.open.Some? || d.tables.openRow.Some? || d.tables.openStructure.Some? || d.tables.open.Some?
             || InEmbeddedImage(d))))
  }

  /** Outside encoded blocks: the open cell decides, else the open extension, else the innermost element and the open Property. */
  predicate TextAllowed(s: Stack, d: Draft, depth: nat, x: Extensions, text: string, blank: bool, options: HeaderOptions)
    requires TextReady(s, d, |x.items|)
  {
    if d.tables.openCell.Some? then CellAllows(d.tables, text, blank, options)
    else if OpenExtension(s).Some? then Consume(x.bytes, |text|, options.maxExtensionBytes).Some?
    else
      && (!blank ==> !RefusesText(s.elements, d, depth))
      && (d.metadata.open.Some? ==> EntryAllows(d.metadata, text, options))
  }

  /** Text goes to the open cell, or to the open Property unless an extension takes it. */
  function DraftWithText(s: Stack, d: Draft, x: Extensions, text: string): Draft
    requires TextReady(s, d, |x.items|)
  {
    if d.tables.openCell.Some? then d.(tables := WithCellText(d.tables, text))
    else if OpenExtension(s).None? && d.metadata.open.Some? then d.(metadata := WithEntryText(d.metadata, text))
    else d
  }

  function ExtensionsWithText(s: Stack, d: Draft, x: Extensions, text: string): Extensions
    requires TextReady(s, d, |x.items|)
  {
    if d.tables.openCell.None? && OpenExtension(s).Some? then AppendedTo(x, OpenExtension(s).value, text) else x
  }

  predicate InEmbeddedImage(d: Draft) {
    CurrentImage(d).Some? && CurrentImage(d).value < |d.images.items| && d.images.items[CurrentImage(d).value].block.kind == Embedded
  }

  function Popped(s: Stack): Stack
    requires s.elements != [] && s.extensions != []
  {
    Stack(s.elements[..|s.elements| - 1], s.extensions[..|s.extensions| - 1])
  }

  lemma PopHeights(s: Stack, depth: nat, extensions: nat)
    requires Heights(s, depth, extensions) && s.elements != []
    ensures depth > 0 && s.extensions != []
    ensures Heights(Popped(s), depth - 1, extensions)
  {
  }

  lemma StackHeight(s: Stack, depth: nat, extensions: nat)
    requires Heights(s, depth, extensions)
    ensures |s.elements| == depth
  {
  }

  lemma OpenBlockIsReady(s: seq<Name>, d: Draft, options: HeaderOptions)
    requires Consistent(s, d, options)
    ensures !NoneOpen(d.encoded) ==> d.encoded.encoding.Some? && E.InStep(d.encoded.decoding)
  {
  }

  function EmptyDraft(): Draft {
    Draft(Images([], {}, [], [], []),
          Entries([], [], map[], [], None, 0, false, false),
          Profiles([], [], map[], []),
          Ancillaries(0, map[], [], 0, 0),
          Thumbnails([], [], [], map[], [], None),
          Tables([], map[], [], [], [], map[], map[], 0, 0, 0, 0, None, None, None, None),
          Closed, {}, [], [])
  }

  lemma EmptyIsConsistent(options: HeaderOptions)
    ensures Consistent([], EmptyDraft(), options)
  {
  }

  // ---------------------------------------------------------------- what a start tag does

  /** A value, unless there is an error. */
  function Unless<T>(error: Option<ErrorCode>, value: T): Option<T> {
    if error.None? then Some(value) else None
  }

  function WithTables(d: Draft, made: Option<Tables>): Option<Draft> {
    if made.None? then None else Some(d.(tables := made.value))
  }

  /** The draft behind the start tag of an element below `outer`, or None if the element is refused. */
  function TableStarted(outer: seq<Name>, tag: Tag, d: Draft, options: HeaderOptions): Option<Draft> {
    if RootOrImageChild(outer, d) then WithTables(d, TableAdded(d.tables, tag, CurrentImage(d), options)) else None
  }

  function StructureStarted(outer: seq<Name>, tag: Tag, d: Draft, options: HeaderOptions): Option<Draft> {
    var rootChild := |outer| == 1 && Parent(outer) == Xisf;
    var tableChild := |outer| >= 2 && Parent(outer) == Table && d.tables.open.Some?;
    if rootChild || tableChild then WithTables(d, StructureAdded(d.tables, tag, tableChild, options)) else None
  }

  function FieldStarted(outer: seq<Name>, tag: Tag, d: Draft, options: HeaderOptions): Option<Draft> {
    if Parent(outer) == Structure && d.tables.openStructure.Some? then WithTables(d, FieldAdded(d.tables, tag, options)) else None
  }

  function RowStarted(outer: seq<Name>, d: Draft, options: HeaderOptions): Option<Draft> {
    if Parent(outer) == Table && d.tables.open.Some? && d.tables.openRow.None? then WithTables(d, RowAdded(d.tables, options)) else None
  }

  function CellStarted(outer: seq<Name>, tag: Tag, d: Draft, options: HeaderOptions): Option<Draft> {
    if Parent(outer) == Row && d.tables.open.Some? && d.tables.openRow.Some? && d.tables.openCell.None? then
      WithTables(d, CellAdded(d.tables, tag, options))
    else None
  }

  function ImageStarted(outer: seq<Name>, tag: Tag, d: Draft, options: HeaderOptions): Option<Draft> {
    var made := ImageAdded(d.images, tag, options);
    if |outer| != 1 || Parent(outer) != Xisf || made.None? then None else Some(d.(images := made.value))
  }

  function ThumbnailStarted(outer: seq<Name>, tag: Tag, d: Draft, options: HeaderOptions): Option<Draft> {
    var made := ThumbnailAdded(d.thumbnails, tag, CurrentImage(d), options);
    if !RootOrImageChild(outer, d) || made.None? then None else Some(d.(thumbnails := made.value))
  }

  function AncillaryStarted(outer: seq<Name>, tag: Tag, d: Draft, options: HeaderOptions): Option<Draft> {
    var made := AncillaryAdded(d.ancillaries, tag, CurrentImage(d), options);
    if !RootOrImageChild(outer, d) || made.None? then None else Some(d.(ancillaries := made.value))
  }

  function ProfileStarted(outer: seq<Name>, tag: Tag, d: Draft, options: HeaderOptions): Option<Draft> {
    var made := ProfileAdded(d.profiles, tag, CurrentImage(d), options);
    if !RootOrImageChild(outer, d) || made.None? then None
    else if BlockOf(tag).kind == InlineData && tag.encoding.Some? then
      Some(d.(profiles := made.value, encoded := Opened(tag.encoding.value, None, None, Some(|d.profiles.items|), None)))
    else Some(d.(profiles := made.value))
  }

  function EntryStarted(outer: seq<Name>, tag: Tag, isProperty: bool, d: Draft, options: HeaderOptions): Option<Draft> {
    var parent := Parent(outer);
    var made := EntryAdded(d.metadata, tag, isProperty, parent == Metadata, CurrentImage(d), options);
    if (parent != Xisf && parent != Image && !(isProperty && parent == Metadata)) || made.None? then None
    else if InlineProperty(tag, isProperty) && tag.encoding.Some? then
      Some(d.(metadata := made.value, encoded := Opened(tag.encoding.value, None, Some(|d.metadata.items|), None, None)))
    else Some(d.(metadata := made.value))
  }

  function MetadataStarted(outer: seq<Name>, d: Draft): Option<Draft> {
    if |outer| == 1 && Parent(outer) == Xisf && d.metadata.elements == 0 then Some(d.(metadata := d.metadata.(elements := 1))) else None
  }

  function DataStarted(outer: seq<Name>, tag: Tag, d: Draft): Option<Draft> {
    var image, thumbnail := CurrentImage(d), d.thumbnails.open;
    if tag.encoding.None? then None
    else if |outer| == 2 && Parent(outer) == Image && image.Some? && image.value < |d.images.items|
         && d.images.items[image.value].block.kind == Embedded
    then
      var made := ImageDataAdded(d.images, tag);
      if made.None? then None else Some(d.(images := made.value, encoded := Opened(tag.encoding.value, image, None, None, None)))
    else if Parent(outer) == Thumbnail && thumbnail.Some? && thumbnail.value < |d.thumbnails.items|
         && d.thumbnails.items[thumbnail.value].block.kind == Embedded
    then
      var made := ThumbnailDataAdded(d.thumbnails, tag);
      if made.None? then None else Some(d.(thumbnails := made.value, encoded := Opened(tag.encoding.value, None, None, None, thumbnail)))
    else None
  }

  function TableReferenced(outer: seq<Name>, tag: Tag, d: Draft, options: HeaderOptions): Option<Draft> {
    if Parent(outer) == Table then WithTables(d, TableReferenceAdded(d.tables, tag.id, options)) else Some(d)
  }

  function MetadataReferenced(outer: seq<Name>, tag: Tag, d: Draft, options: HeaderOptions): Option<Draft> {
    var current := CurrentImage(d);
    if (Parent(outer) == Image && current.Some?) || Parent(outer) == Metadata then
      var made := MetadataReferenceAdded(d.metadata, tag, if Parent(outer) == Image then ImageScope else UnitScope, current, options);
      if made.None? then None else Some(d.(metadata := made.value))
    else Some(d)
  }

  function ReferenceStarted(outer: seq<Name>, tag: Tag, d: Draft, options: HeaderOptions): Option<Draft> {
    var noted := d.(references := d.references + [tag.id],
                    thumbnailReferences := d.thumbnailReferences + if Parent(outer) == Thumbnail then [tag.id] else []);
    var tabled := TableReferenced(outer, tag, noted, options);
    if tag.fault != NoFault || tabled.None? then None else MetadataReferenced(outer, tag, tabled.value, options)
  }

  function UidRegistered(tag: Tag, d: Draft): Option<Draft> {
    if !IsCore(tag.name) || tag.uid == "" then Some(d)
    else if tag.uid in d.coreUids then None
    else Some(d.(coreUids := d.coreUids + {tag.uid}))
  }

  function KindStarted(outer: seq<Name>, tag: Tag, d: Draft, options: HeaderOptions): Option<Draft> {
    match tag.name
    case Reference => ReferenceStarted(outer, tag, d, options)
    case Table => TableStarted(outer, tag, d, options)
    case Structure => StructureStarted(outer, tag, d, options)
    case Field => FieldStarted(outer, tag, d, options)
    case Row => RowStarted(outer, d, options)
    case Cell => CellStarted(outer, tag, d, options)
    case IccProfile => ProfileStarted(outer, tag, d, options)
    case Ancillary => AncillaryStarted(outer, tag, d, options)
    case Thumbnail => ThumbnailStarted(outer, tag, d, options)
    case Data => DataStarted(outer, tag, d)
    case Image => ImageStarted(outer, tag, d, options)
    case Metadata => MetadataStarted(outer, d)
    case Property => EntryStarted(outer, tag, true, d, options)
    case FitsKeyword => EntryStarted(outer, tag, false, d, options)
    case _ => Some(d)
  }

  function ElementStarted(outer: seq<Name>, tag: Tag, d: Draft, options: HeaderOptions): Option<Draft> {
    var registered := UidRegistered(tag, d);
    if registered.None? then None else KindStarted(outer, tag, registered.value, options)
  }

  // ---------------------------------------------------------------- what an end tag does

  function BlockEnded(d: Draft, options: HeaderOptions): Option<Draft> {
    if EndsBlock(d, options) then Some(d.(encoded := Closed)) else None
  }

  function PropertyEnded(d: Draft, options: HeaderOptions): Option<Draft> {
    var ended := if d.encoded.metadata.Some? then BlockEnded(d, options) else Some(d);
    if ended.None? then None else Some(ended.value.(metadata := ended.value.metadata.(open := None)))
  }

  function TablePartEnded(n: Name, x: Tables): Option<Tables> {
    match n
    case Cell => Some(x.(openCell := None))
    case Row => RowClosed(x)
    case Structure => StructureClosed(x)
    case _ => Some(x.(open := None))
  }

  /** The end of a Cell, Row, Structure or Table that is open. */
  method EndTablePart(n: Name, x: Tables, ghost images: nat) returns (r: Result<Tables>)
    requires TablesOk(x, images) && (n == Cell || n == Row || n == Structure || n == Table)
    requires (n == Row ==> x.openRow.Some? && x.openCell.None?) && (n == Structure ==> x.openStructure.Some?)
    requires n == Table ==> x.openRow.None?
    ensures r.Err? ==> r.error == InvalidXisf
    ensures r.Ok? ==> TablesOk(r.value, images) && r.value == x.(
                open := if n == Table then None else x.open, openStructure := if n == Structure then None else x.openStructure,
                openRow := if n == Row then None else x.openRow, openCell := if n == Cell then None else x.openCell)
    ensures ToOption(r) == TablePartEnded(n, x)
  {
    if n == Row {
      var closed := CloseRow(x, images);
      return if closed.Ok? then closed else Err(InvalidXisf);
    } else if n == Structure {
      var closed := CloseStructure(x, images);
      return if closed.Ok? then closed else Err(InvalidXisf);
    }
    return Ok(if n == Cell then x.(openCell := None) else x.(open := None));
  }

  /** The draft behind the end tag of the element with this name. */
  function ElementEnded(n: Name, d: Draft, options: HeaderOptions): Option<Draft> {
    match n
    case Data => BlockEnded(d, options)
    case IccProfile => if d.encoded.profile.Some? then BlockEnded(d, options) else Some(d)
    case Property => PropertyEnded(d, options)
    case Cell => WithTables(d, TablePartEnded(n, d.tables))
    case Row => WithTables(d, TablePartEnded(n, d.tables))
    case Structure => WithTables(d, TablePartEnded(n, d.tables))
    case Table => WithTables(d, TablePartEnded(n, d.tables))
    case Thumbnail =>
      var made := ThumbnailClosed(d.thumbnails);
      if made.None? then None else Some(d.(thumbnails := made.value))
    case Image =>
      var made := ImageClosed(d.images);
      if made.None? then None else Some(d.(images := made.value))
    case _ => Some(d)
  }

  // ---------------------------------------------------------------- the state of a run

  datatype State = State(
    depth: nat,
    nodes: nat,
    sawRoot: bool,
    rootClosed: bool,
    stack: Stack,
    extensions: Extensions,
    ranges: seq<AttachedRange>,
    draft: Draft)

  const Beginning: State := State(0, 0, false, false, Stack([], []), Extensions([], 0, 0), [], EmptyDraft())

  /** The place among the extension elements that a start tag at this depth takes, if it is one of them. */
  function ExtensionNoted(depth: nat, outer: seq<Name>, x: Extensions, current: Option<nat>, tag: Tag, options: HeaderOptions):
    Option<(Option<nat>, Extensions)>
  {
    if depth <= 1 || !tag.name.Foreign? then Some((None, x))
    else
      var attributes := Consume(x.attributes, tag.attributes, options.maxExtensionAttributes);
      var bytes := Consume(x.bytes, tag.bytes, options.maxExtensionBytes);
      if depth != 2 || Parent(outer) != Xisf || |x.items| >= options.maxExtensions || attributes.None? || bytes.None? then None
      else Some((Some(|x.items|), Extensions(x.items + [Extension(current, "")], attributes.value, bytes.value)))
  }

  /** A location that ought to be an attachment and is none, in an element of the XISF namespace. */
  predicate BadAttachment(tag: Tag) {
    !tag.name.Foreign? && tag.location.Some? && StartsWith(tag.location.value, "attachment:") && BlockOf(tag).kind != Attachment
  }

  /** The limits, the place on the stacks, and the claimed range. */
  function Entered(s: State, tag: Tag, options: HeaderOptions): Option<State> {
    var noted := ExtensionNoted(s.depth + 1, s.stack.elements, s.extensions, CurrentImage(s.draft), tag, options);
    if s.depth + 1 > options.maxDepth || s.nodes + 1 > options.maxNodes || tag.attributes > options.maxAttributes || noted.None? then None
    else if BadAttachment(tag) then None
    else
      Some(s.(depth := s.depth + 1, nodes := s.nodes + 1, extensions := noted.value.1, ranges := s.ranges + RangesOf(tag),
              stack := Stack(s.stack.elements + [tag.name], s.stack.extensions + [noted.value.0])))
  }

  /** The element among those that are open. */
  function Admitted(outer: seq<Name>, s: State, tag: Tag, options: HeaderOptions): Option<State> {
    var parent := Parent(outer);
    if !NoneOpen(s.draft.encoded) || parent == Cell || parent == Field || (parent == Row && tag.name != Cell) then None
    else if s.depth == 1 then
      if s.sawRoot || tag.name != Xisf || tag.fault != NoFault then None else Some(s.(sawRoot := true))
    else
      var d := ElementStarted(outer, tag, s.draft, options);
      if d.None? then None else Some(s.(draft := d.value))
  }

  function StartTaken(s: State, tag: Tag, options: HeaderOptions): Option<State> {
    var entered := Entered(s, tag, options);
    if entered.None? then None else Admitted(s.stack.elements, entered.value, tag, options)
  }

  function EndTaken(s: State, options: HeaderOptions): Option<State> {
    if s.stack.elements == [] || s.stack.extensions == [] || s.depth == 0 then None
    else
      var d := ElementEnded(Top(s.stack.elements), s.draft, options);
      if d.None? then None
      else Some(s.(draft := d.value, depth := s.depth - 1, rootClosed := s.rootClosed || s.depth == 1, stack := Popped(s.stack)))
  }

  function BlockTextTaken(d: Draft, text: string, options: HeaderOptions): Option<Draft> {
    if d.encoded.encoding.None? || !E.InStep(d.encoded.decoding) then None
    else
      var next := E.Feed(RulesOf(d.encoded, options), d.encoded.decoding, text);
      if next.Going? then Some(WithBytes(d, next.output).(encoded := d.encoded.(decoding := next))) else None
  }

  function TextTaken(s: State, text: string, blank: bool, options: HeaderOptions): Option<State> {
    if text == "" then Some(s)
    else if !NoneOpen(s.draft.encoded) then
      var d := BlockTextTaken(s.draft, text, options);
      if d.None? then None else Some(s.(draft := d.value))
    else if TextReady(s.stack, s.draft, |s.extensions.items|)
         && TextAllowed(s.stack, s.draft, s.depth, s.extensions, text, blank, options)
    then
      Some(s.(draft := DraftWithText(s.stack, s.draft, s.extensions, text),
              extensions := ExtensionsWithText(s.stack, s.draft, s.extensions, text)))
    else None
  }
}
