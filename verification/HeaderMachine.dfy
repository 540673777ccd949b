/**
 The handlers that build a document from the events of a header: elements open, text and elements
 close, while open indices and parallel lists are kept in step.
 */
module HeaderMachine {
  import opened Base
  import opened HeaderStack
  import opened Locations
  import opened Ranges
  import opened HeaderLists
  import opened HeaderDraft
  import E = EncodedText

  class XmlBuilder {
    const options: HeaderOptions
    var error: Option<ErrorCode>
    var depth: nat
    var nodes: nat
    var sawRoot: bool
    var rootClosed: bool
    var stack: Stack
    var extensions: Extensions
    var attachedRanges: seq<AttachedRange>
    var draft: Draft

    /** The state that the handlers work on. */
    function View(): State
      reads this
    {
      State(depth, nodes, sawRoot, rootClosed, stack, extensions, attachedRanges, draft)
    }

    /** The invariant of a run: until something fails, every index and list is in step. */
    predicate Valid()
      reads this
    {
      && (error.None? ==>
            && Heights(stack, depth, |extensions.items|)
            && Consistent(stack.elements, draft, options)
            && (stack.elements != [] ==> sawRoot))
      && (error.Some? ==> HandlerCode(error.value))
    }

    constructor (options: HeaderOptions)
      ensures Valid() && error.None? && stack.elements == [] && this.options == options
      ensures View() == Beginning
    {
      this.options := options;
      error, depth, nodes, sawRoot, rootClosed := None, 0, 0, false, false;
      stack := Stack([], []);
      extensions, attachedRanges := Extensions([], 0, 0), [];
      draft := EmptyDraft();
      new;
      EmptyIsConsistent(options);
    }

    /** `state.fail`: the first error counts. */
    method Fail(code: ErrorCode)
      requires HandlerCode(code) && (error.Some? ==> HandlerCode(error.value))
      modifies this`error
      ensures error == if old(error).Some? then old(error) else Some(code)
    {
      if error.None? {
        error := Some(code);
      }
    }

    /** Handlers of `start_element`; `outer` are the elements around the new one. */
    method OpenTable(outer: seq<Name>, tag: Tag)
      requires error.None? && Consistent(outer, draft, options) && NoneOpen(draft.encoded)
      modifies this`draft, this`error
      ensures error.None? ==> Consistent(outer + [Table], draft, options)
      ensures error.None? ==> TallyOf(draft) == Counted(TallyOf(old(draft)), Table)
      ensures error.None? ==> SameBlocks(old(draft), draft) && draft.encoded == old(draft).encoded
      ensures error.Some? ==> HandlerCode(error.value)
      ensures Unless(error, draft) == TableStarted(outer, tag, old(draft), options)
    {
      var d := draft;
      hide TableAdded;
      hide GoodStack, Linked, ImagesOk, EntriesOk, ProfilesOk, AncillariesOk, ThumbnailsOk, TablesOk, EncodedOk;
      if !RootOrImageChild(outer, d) {
        error := Some(InvalidXisf);
        return;
      }
      CurrentInRange(d);
      LinkTable(outer, d.images, d.thumbnails, d.tables, d.tables, d.encoded);
      var made := AddTable(d.tables, tag, CurrentImage(d), |d.images.items|, options);
      if made.Err? {
        error := Some(made.error);
        return;
      }
      var tables := made.value;
      LinkTable(outer, d.images, d.thumbnails, d.tables, tables, d.encoded);
      draft := d.(tables := tables);
    }

    method OpenStructure(outer: seq<Name>, tag: Tag)
      requires error.None? && Consistent(outer, draft, options) && NoneOpen(draft.encoded)
      modifies this`draft, this`error
      ensures error.None? ==> Consistent(outer + [Structure], draft, options)
      ensures error.None? ==> TallyOf(draft) == Counted(TallyOf(old(draft)), Structure)
      ensures error.None? ==> SameBlocks(old(draft), draft) && draft.encoded == old(draft).encoded
      ensures error.Some? ==> HandlerCode(error.value)
      ensures Unless(error, draft) == StructureStarted(outer, tag, old(draft), options)
    {
      var d := draft;
      hide StructureAdded;
      hide GoodStack, Linked, ImagesOk, EntriesOk, ProfilesOk, AncillariesOk, ThumbnailsOk, TablesOk, EncodedOk;
      var rootChild := |outer| == 1 && Parent(outer) == Xisf;
      var tableChild := |outer| >= 2 && Parent(outer) == Table && d.tables.open.Some?;
      if !rootChild && !tableChild {
        error := Some(InvalidXisf);
        return;
      }
      LinkStructure(outer, d.images, d.thumbnails, d.tables, d.tables, d.encoded);
      var made := AddStructure(d.tables, tag, tableChild, |d.images.items|, options);
      if made.Err? {
        error := Some(made.error);
        return;
      }
      var tables := made.value;
      LinkStructure(outer, d.images, d.thumbnails, d.tables, tables, d.encoded);
      draft := d.(tables := tables);
    }

    method OpenField(outer: seq<Name>, tag: Tag)
      requires error.None? && Consistent(outer, draft, options) && NoneOpen(draft.encoded)
      modifies this`draft, this`error
      ensures error.None? ==> Consistent(outer + [Field], draft, options)
      ensures error.None? ==> TallyOf(draft) == Counted(TallyOf(old(draft)), Field)
      ensures error.None? ==> SameBlocks(old(draft), draft) && draft.encoded == old(draft).encoded
      ensures error.Some? ==> HandlerCode(error.value)
      ensures Unless(error, draft) == FieldStarted(outer, tag, old(draft), options)
    {
      var d := draft;
      hide FieldAdded;
      hide GoodStack, Linked, ImagesOk, EntriesOk, ProfilesOk, AncillariesOk, ThumbnailsOk, TablesOk, EncodedOk;
      if Parent(outer) != Structure || d.tables.openStructure.None? {
        error := Some(InvalidXisf);
        return;
      }
      var made := AddField(d.tables, tag, |d.images.items|, options);
      if made.Err? {
        error := Some(made.error);
        return;
      }
      var tables := made.value;
      SameLinks(outer, d.images, d.thumbnails, d.tables, tables, d.encoded);
      PlainIsConsistent(outer, Field, d.(tables := tables), options);
      draft := d.(tables := tables);
    }

    method OpenRow(outer: seq<Name>)
      requires error.None? && Consistent(outer, draft, options) && NoneOpen(draft.encoded)
      modifies this`draft, this`error
      ensures error.None? ==> Consistent(outer + [Row], draft, options)
      ensures error.None? ==> TallyOf(draft) == Counted(TallyOf(old(draft)), Row)
      ensures error.None? ==> SameBlocks(old(draft), draft) && draft.encoded == old(draft).encoded
      ensures error.Some? ==> HandlerCode(error.value)
      ensures Unless(error, draft) == RowStarted(outer, old(draft), options)
    {
      var d := draft;
      hide RowAdded;
      hide GoodStack, Linked, ImagesOk, EntriesOk, ProfilesOk, AncillariesOk, ThumbnailsOk, TablesOk, EncodedOk;
      if Parent(outer) != Table || d.tables.open.None? || d.tables.openRow.Some? {
        error := Some(InvalidXisf);
        return;
      }
      LinkRow(outer, d.images, d.thumbnails, d.tables, d.tables, d.encoded);
      var made := AddRow(d.tables, |d.images.items|, options);
      if made.Err? {
        error := Some(made.error);
        return;
      }
      var tables := made.value;
      LinkRow(outer, d.images, d.thumbnails, d.tables, tables, d.encoded);
      draft := d.(tables := tables);
    }

    method OpenCell(outer: seq<Name>, tag: Tag)
      requires error.None? && Consistent(outer, draft, options) && NoneOpen(draft.encoded)
      modifies this`draft, this`error
      ensures error.None? ==> Consistent(outer + [Cell], draft, options)
      ensures error.None? ==> TallyOf(draft) == Counted(TallyOf(old(draft)), Cell)
      ensures error.None? ==> SameBlocks(old(draft), draft) && draft.encoded == old(draft).encoded
      ensures error.Some? ==> HandlerCode(error.value)
      ensures Unless(error, draft) == CellStarted(outer, tag, old(draft), options)
    {
      var d := draft;
      hide CellAdded;
      hide GoodStack, Linked, ImagesOk, EntriesOk, ProfilesOk, AncillariesOk, ThumbnailsOk, TablesOk, EncodedOk;
      if Parent(outer) != Row || d.tables.open.None? || d.tables.openRow.None? || d.tables.openCell.Some? {
        error := Some(InvalidXisf);
        return;
      }
      LinkCell(outer, d.images, d.thumbnails, d.tables, d.tables, d.encoded);
      var made := AddCell(d.tables, tag, |d.images.items|, options);
      if made.Err? {
        error := Some(made.error);
        return;
      }
      var tables := made.value;
      LinkCell(outer, d.images, d.thumbnails, d.tables, tables, d.encoded);
      draft := d.(tables := tables);
    }

    method OpenImage(outer: seq<Name>, tag: Tag)
      requires error.None? && Consistent(outer, draft, options) && NoneOpen(draft.encoded)
      modifies this`draft, this`error
      ensures error.None? ==> Consistent(outer + [Image], draft, options)
      ensures error.None? ==> TallyOf(draft) == Counted(TallyOf(old(draft)), Image)
      ensures error.None? ==> BlocksGrow(old(draft), draft) && Begins(outer, tag, draft)
      ensures error.Some? ==> HandlerCode(error.value)
      ensures Unless(error, draft) == ImageStarted(outer, tag, old(draft), options)
    {
      var d := draft;
      hide ImageAdded;
      hide GoodStack, Linked, ImagesOk, EntriesOk, ProfilesOk, AncillariesOk, ThumbnailsOk, TablesOk, EncodedOk;
      if |outer| != 1 || Parent(outer) != Xisf {
        error := Some(InvalidXisf);
        return;
      }
      LinkImage(outer, d.images, d.images, d.thumbnails, d.tables, d.encoded);
      var made := AddImage(d.images, tag, options);
      if made.Err? {
        error := Some(made.error);
        return;
      }
      var images := made.value;
      LinkImage(outer, d.images, images, d.thumbnails, d.tables, d.encoded);
      MoreImages(d, |d.images.items|, |images.items|);
      NoneOpenAnywhere(d.encoded, options, d.images.blocks, d.metadata.blocks, d.profiles.blocks, d.thumbnails.blocks,
                       images.blocks, d.metadata.blocks, d.profiles.blocks, d.thumbnails.blocks);
      draft := d.(images := images);
    }

    method OpenThumbnail(outer: seq<Name>, tag: Tag)
      requires error.None? && Consistent(outer, draft, options) && NoneOpen(draft.encoded)
      modifies this`draft, this`error
      ensures error.None? ==> Consistent(outer + [Thumbnail], draft, options)
      ensures error.None? ==> TallyOf(draft) == Counted(TallyOf(old(draft)), Thumbnail)
      ensures error.None? ==> BlocksGrow(old(draft), draft) && Begins(outer, tag, draft)
      ensures error.Some? ==> HandlerCode(error.value)
      ensures Unless(error, draft) == ThumbnailStarted(outer, tag, old(draft), options)
    {
      var d := draft;
      hide ThumbnailAdded;
      hide GoodStack, Linked, ImagesOk, EntriesOk, ProfilesOk, AncillariesOk, ThumbnailsOk, TablesOk, EncodedOk;
      if !RootOrImageChild(outer, d) {
        error := Some(InvalidXisf);
        return;
      }
      CurrentInRange(d);
      LinkThumbnail(outer, d.images, d.thumbnails, d.thumbnails, d.tables, d.encoded);
      var made := AddThumbnail(d.thumbnails, tag, CurrentImage(d), |d.images.items|, options);
      if made.Err? {
        error := Some(made.error);
        return;
      }
      var thumbnails := made.value;
      LinkThumbnail(outer, d.images, d.thumbnails, thumbnails, d.tables, d.encoded);
      NoneOpenAnywhere(d.encoded, options, d.images.blocks, d.metadata.blocks, d.profiles.blocks, d.thumbnails.blocks,
                       d.images.blocks, d.metadata.blocks, d.profiles.blocks, thumbnails.blocks);
      draft := d.(thumbnails := thumbnails);
    }

    method OpenAncillary(outer: seq<Name>, tag: Tag)
      requires error.None? && Consistent(outer, draft, options) && NoneOpen(draft.encoded)
      modifies this`draft, this`error
      ensures error.None? ==> Consistent(outer + [Ancillary], draft, options)
      ensures error.None? ==> TallyOf(draft) == Counted(TallyOf(old(draft)), Ancillary)
      ensures error.None? ==> SameBlocks(old(draft), draft) && draft.encoded == old(draft).encoded
      ensures error.Some? ==> HandlerCode(error.value)
      ensures Unless(error, draft) == AncillaryStarted(outer, tag, old(draft), options)
    {
      var d := draft;
      hide AncillaryAdded;
      hide GoodStack, Linked, ImagesOk, EntriesOk, ProfilesOk, AncillariesOk, ThumbnailsOk, TablesOk, EncodedOk;
      if !RootOrImageChild(outer, d) {
        error := Some(InvalidXisf);
        return;
      }
      CurrentInRange(d);
      var made := AddAncillary(d.ancillaries, tag, CurrentImage(d), |d.images.items|, options);
      if made.Err? {
        error := Some(made.error);
        return;
      }
      var ancillaries := made.value;
      PlainIsConsistent(outer, Ancillary, d.(ancillaries := ancillaries), options);
      draft := d.(ancillaries := ancillaries);
    }

    method OpenProfile(outer: seq<Name>, tag: Tag)
      requires error.None? && tag.name == IccProfile && Consistent(outer, draft, options) && NoneOpen(draft.encoded)
      modifies this`draft, this`error
      ensures error.None? ==> Consistent(outer + [IccProfile], draft, options)
      ensures error.None? ==> TallyOf(draft) == Counted(TallyOf(old(draft)), IccProfile)
      ensures error.None? ==> BlocksGrow(old(draft), draft) && Begins(outer, tag, draft)
      ensures error.Some? ==> HandlerCode(error.value)
      ensures Unless(error, draft) == ProfileStarted(outer, tag, old(draft), options)
    {
      var d := draft;
      hide BlocksGrow, Begins, ParseLocation, ProfileAdded;
      hide GoodStack, Linked, ImagesOk, EntriesOk, ProfilesOk, AncillariesOk, ThumbnailsOk, TablesOk;
      if !RootOrImageChild(outer, d) {
        error := Some(InvalidXisf);
        return;
      }
      CurrentInRange(d);
      var made := AddProfile(d.profiles, tag, CurrentImage(d), |d.images.items|, options);
      if made.Err? {
        error := Some(made.error);
        return;
      }
      var profiles := made.value;
      var index := |d.profiles.items|;
      if BlockOf(tag).kind == InlineData {
        var encoded := Opened(tag.encoding.value, None, None, Some(index), None);
        LinkInline(outer, IccProfile, d.images, d.thumbnails, d.tables, d.encoded, encoded);
        assert |d.profiles.blocks| == index by {
          ProfileBlocks(d.profiles, |d.images.items|);
        }
        draft := d.(profiles := profiles, encoded := encoded);
        ProfileOpens(outer, tag, d, draft);
        return;
      }
      PlainIsConsistent(outer, IccProfile, d.(profiles := profiles), options);
      draft := d.(profiles := profiles);
      ProfileOpens(outer, tag, d, draft);
    }

    /** A Property or FITSKeyword. */
    method OpenEntry(outer: seq<Name>, tag: Tag, isProperty: bool)
      requires error.None? && tag.name == (if isProperty then Property else FitsKeyword) && Consistent(outer, draft, options)
               && NoneOpen(draft.encoded)
      modifies this`draft, this`error
      ensures error.None? ==> Consistent(outer + [if isProperty then Property else FitsKeyword], draft, options)
      ensures error.None? ==> TallyOf(draft) == Counted(TallyOf(old(draft)), if isProperty then Property else FitsKeyword)
      ensures error.None? ==> BlocksGrow(old(draft), draft) && Begins(outer, tag, draft)
      ensures error.Some? ==> HandlerCode(error.value)
      ensures Unless(error, draft) == EntryStarted(outer, tag, isProperty, old(draft), options)
    {
      var d := draft;
      hide BlocksGrow, Begins, ParseLocation, EntryAdded, EncodedOk, SeenOk, Emplace, BlockOf, FormOf;
      hide GoodStack, Linked, ImagesOk, EntriesOk, ProfilesOk, AncillariesOk, ThumbnailsOk, TablesOk;
      var parent := Parent(outer);
      if outer == [] || (parent != Xisf && parent != Image && !(isProperty && parent == Metadata)) {
        error := Some(InvalidXisf);
        return;
      }
      CurrentInRange(d);
      var made := AddEntry(d.metadata, tag, isProperty, parent == Metadata, CurrentImage(d), |d.images.items|, options);
      if made.Err? {
        error := Some(made.error);
        return;
      }
      var metadata := made.value;
      draft := PlaceEntry(outer, d, metadata, tag, isProperty, options);
      EntryOpens(outer, tag, isProperty, d, draft);
    }

    method OpenMetadata(outer: seq<Name>)
      requires error.None? && Consistent(outer, draft, options) && NoneOpen(draft.encoded)
      modifies this`draft, this`error
      ensures error.None? ==> Consistent(outer + [Metadata], draft, options) && draft.metadata.elements == 1
      ensures error.None? ==> TallyOf(draft) == Counted(TallyOf(old(draft)), Metadata)
      ensures error.None? ==> SameBlocks(old(draft), draft) && draft.encoded == old(draft).encoded
      ensures error.Some? ==> HandlerCode(error.value)
      ensures Unless(error, draft) == MetadataStarted(outer, old(draft))
    {
      var d := draft;
      hide GoodStack, Linked, ImagesOk, ProfilesOk, AncillariesOk, ThumbnailsOk, TablesOk, EncodedOk;
      if |outer| != 1 || Parent(outer) != Xisf || d.metadata.elements != 0 {
        error := Some(InvalidXisf);
        return;
      }
      var next := d.(metadata := d.metadata.(elements := d.metadata.elements + 1));
      PlainIsConsistent(outer, Metadata, next, options);
      draft := next;
    }

    /** The Data of an embedded Image. */
    method OpenImageData(outer: seq<Name>, tag: Tag)
      requires error.None? && tag.name == Data && Parent(outer) == Image && Consistent(outer, draft, options)
               && NoneOpen(draft.encoded) && outer != [] && draft.images.stack != []
      modifies this`draft, this`error
      ensures error.None? ==> Consistent(outer + [Data], draft, options)
      ensures error.None? ==> TallyOf(draft) == Counted(TallyOf(old(draft)), Data)
      ensures error.None? ==> BlocksGrow(old(draft), draft) && Begins(outer, tag, draft)
      ensures error.Some? ==> HandlerCode(error.value)
      ensures Unless(error, draft.images) == ImageDataAdded(old(draft).images, tag)
      ensures error.None? ==>
                && tag.encoding.Some?
                && draft == old(draft).(images := draft.images,
                                        encoded := Opened(tag.encoding.value, CurrentImage(old(draft)), None, None, None))
    {
      var d := draft;
      hide BlocksGrow, Begins;
      hide GoodStack, Linked, EntriesOk, ProfilesOk, AncillariesOk, ThumbnailsOk, TablesOk;
      var made := AddImageData(d.images, tag);
      if made.Err? {
        error := Some(made.error);
        return;
      }
      var images := made.value;
      var encoded := Opened(tag.encoding.value, Some(d.images.stack[0]), None, None, None);
      LinkData(outer, d.images, images, d.thumbnails, d.thumbnails, d.tables, d.encoded, encoded);
      draft := d.(images := images, encoded := encoded);
      ImageDataOpens(outer, tag, d, draft);
    }

    /** The Data of an embedded Thumbnail. */
    method OpenThumbnailData(outer: seq<Name>, tag: Tag)
      requires error.None? && tag.name == Data && Parent(outer) == Thumbnail && Consistent(outer, draft, options)
               && NoneOpen(draft.encoded) && outer != [] && draft.thumbnails.open.Some?
      modifies this`draft, this`error
      ensures error.None? ==> Consistent(outer + [Data], draft, options)
      ensures error.None? ==> TallyOf(draft) == Counted(TallyOf(old(draft)), Data)
      ensures error.None? ==> BlocksGrow(old(draft), draft) && Begins(outer, tag, draft)
      ensures error.Some? ==> HandlerCode(error.value)
      ensures Unless(error, draft.thumbnails) == ThumbnailDataAdded(old(draft).thumbnails, tag)
      ensures error.None? ==>
                && tag.encoding.Some?
                && draft == old(draft).(thumbnails := draft.thumbnails,
                                        encoded := Opened(tag.encoding.value, None, None, None, old(draft).thumbnails.open))
    {
      var d := draft;
      hide BlocksGrow, Begins;
      hide GoodStack, Linked, EntriesOk, ProfilesOk, AncillariesOk, ImagesOk, TablesOk;
      var made := AddThumbnailData(d.thumbnails, tag, |d.images.items|);
      if made.Err? {
        error := Some(made.error);
        return;
      }
      var thumbnails := made.value;
      var encoded := Opened(tag.encoding.value, None, None, None, d.thumbnails.open);
      LinkData(outer, d.images, d.images, d.thumbnails, thumbnails, d.tables, d.encoded, encoded);
      draft := d.(thumbnails := thumbnails, encoded := encoded);
      ThumbnailDataOpens(outer, tag, d, draft);
    }

    /** Data, the encoded block of an embedded Image or Thumbnail that is the parent. */
    method OpenData(outer: seq<Name>, tag: Tag)
      requires error.None? && tag.name == Data && Consistent(outer, draft, options) && NoneOpen(draft.encoded)
      modifies this`draft, this`error
      ensures error.None? ==> Consistent(outer + [Data], draft, options)
      ensures error.None? ==> TallyOf(draft) == Counted(TallyOf(old(draft)), Data)
      ensures error.None? ==> BlocksGrow(old(draft), draft) && Begins(outer, tag, draft)
      ensures error.Some? ==> HandlerCode(error.value)
      ensures Unless(error, draft) == DataStarted(outer, tag, old(draft))
    {
      var d := draft;
      hide BlocksGrow, Begins;
      hide GoodStack, Linked, EntriesOk, ProfilesOk, AncillariesOk, TablesOk, EncodedOk;
      var image := CurrentImage(d);
      if |outer| == 2 && Parent(outer) == Image && image.Some? && d.images.items[image.value].block.kind == Embedded {
        OpenImageData(outer, tag);
      } else if Parent(outer) == Thumbnail && d.thumbnails.open.Some? && d.thumbnails.items[d.thumbnails.open.value].block.kind == Embedded {
        OpenThumbnailData(outer, tag);
      } else {
        error := Some(InvalidXisf);
      }
    }

    /** Character data inside an open encoded block. */
    method BlockText(s: seq<Name>, text: string)
      requires error.None? && Consistent(s, draft, options) && !NoneOpen(draft.encoded)
      modifies this`draft, this`error
      ensures error.None? ==> Consistent(s, draft, options)
      ensures error.None? ==> TallyOf(draft) == TallyOf(old(draft))
      ensures error.Some? ==> HandlerCode(error.value)
      ensures var next := E.Feed(RulesOf(old(draft).encoded, options), old(draft).encoded.decoding, text);
              if next.Going? then
                error.None? && draft == WithBytes(old(draft), next.output).(encoded := old(draft).encoded.(decoding := next))
              else error.Some?
    {
      var d := draft;
      hide GoodStack, Linked, ImagesOk, EntriesOk, ProfilesOk, AncillariesOk, ThumbnailsOk, TablesOk, SeenOk, WithBytes, OpenBytes;
      var made := DecodeMore(d.encoded, text, options);
      if made.Err? {
        error := Some(made.error);
        return;
      }
      var next := made.value;
      WithBytesKeeps(d, next.output, options);
      WithBytesOpen(d, next.output, options);
      var e := WithBytes(d, next.output).(encoded := d.encoded.(decoding := next));
      SameOpenBlock(d.encoded, next, s, d, e);
      draft := e;
    }

    /** Closing an encoded block: the text must not stop inside a quartet or a byte. */
    method CloseBlock(s: seq<Name>)
      requires error.None? && Consistent(s, draft, options) && s != [] && !NoneOpen(draft.encoded)
      modifies this`draft, this`error
      ensures error.None? ==> Consistent(s[..|s| - 1], draft, options) && draft == old(draft).(encoded := Closed)
      ensures error.None? ==> TallyOf(draft) == TallyOf(old(draft))
      ensures error.None? <==> E.Finished(RulesOf(old(draft).encoded, options), old(draft).encoded.decoding).Some?
      ensures error.None? ==> SameBlocks(old(draft), draft) && NoneOpen(draft.encoded) && EndsBlock(old(draft), options)
      ensures error.Some? ==> error.value == InvalidXisf
      ensures Unless(error, draft) == BlockEnded(old(draft), options)
    {
      var d := draft;
      Unlink(s, d.images, d.images, d.thumbnails, d.thumbnails, d.tables, d.tables, d.encoded, Closed);
      BlockIsOnTop(s, d);
      hide GoodStack, Linked, ImagesOk, EntriesOk, ProfilesOk, AncillariesOk, ThumbnailsOk, TablesOk;
      if E.Finished(RulesOf(d.encoded, options), d.encoded.decoding).None? {
        error := Some(InvalidXisf);
        return;
      }
      draft := d.(encoded := Closed);
    }

    method CloseProperty(s: seq<Name>)
      requires error.None? && Consistent(s, draft, options) && s != [] && Top(s) == Property
      modifies this`draft, this`error
      ensures error.None? ==> Consistent(s[..|s| - 1], draft, options)
      ensures error.None? ==> TallyOf(draft) == TallyOf(old(draft))
      ensures error.None? ==> SameBlocks(old(draft), draft) && NoneOpen(draft.encoded)
      ensures error.None? && !NoneOpen(old(draft).encoded) ==> EndsBlock(old(draft), options)
      ensures error.Some? ==> HandlerCode(error.value)
      ensures Unless(error, draft) == PropertyEnded(old(draft), options)
    {
      PropertyBlock(s, draft);
      if draft.encoded.metadata.Some? {
        CloseBlock(s);
        if error.Some? {
          return;
        }
      } else {
        PlainCloses(s, draft, options);
      }
      hide GoodStack, Linked, ImagesOk, ProfilesOk, AncillariesOk, ThumbnailsOk, TablesOk, EncodedOk;
      draft := draft.(metadata := draft.metadata.(open := None));
    }

    method CloseProfile(s: seq<Name>)
      requires error.None? && Consistent(s, draft, options) && s != [] && Top(s) == IccProfile
      modifies this`draft, this`error
      ensures error.None? ==> Consistent(s[..|s| - 1], draft, options)
      ensures error.None? ==> TallyOf(draft) == TallyOf(old(draft))
      ensures error.None? ==> SameBlocks(old(draft), draft) && NoneOpen(draft.encoded)
      ensures error.None? && !NoneOpen(old(draft).encoded) ==> EndsBlock(old(draft), options)
      ensures error.Some? ==> HandlerCode(error.value)
      ensures Unless(error, draft) == ElementEnded(IccProfile, old(draft), options)
    {
      PropertyBlock(s, draft);
      if draft.encoded.profile.Some? {
        CloseBlock(s);
      } else {
        PlainCloses(s, draft, options);
      }
    }

    /** Cell, Row, Structure and Table: the index of the element is open, so the closing tag is never unexpected. */
    method CloseTablePart(s: seq<Name>)
      requires error.None? && Consistent(s, draft, options) && s != []
               && (Top(s) == Cell || Top(s) == Row || Top(s) == Structure || Top(s) == Table)
      modifies this`draft, this`error
      ensures error.None? ==> Consistent(s[..|s| - 1], draft, options)
      ensures error.None? ==> TallyOf(draft) == TallyOf(old(draft))
      ensures error.None? ==> SameBlocks(old(draft), draft) && draft.encoded == old(draft).encoded
      ensures error.Some? ==> error.value == InvalidXisf
      ensures Unless(error, draft) == WithTables(old(draft), TablePartEnded(Top(s), old(draft).tables))
    {
      var d := draft;
      hide TablePartEnded, SameBlocks;
      PropertyBlock(s, d);
      Unlink(s, d.images, d.images, d.thumbnails, d.thumbnails, d.tables, d.tables, d.encoded, d.encoded);
      hide GoodStack, Linked, ImagesOk, EntriesOk, ProfilesOk, AncillariesOk, ThumbnailsOk, EncodedOk, TablesOk;
      var closed := EndTablePart(Top(s), d.tables, |d.images.items|);
      if closed.Err? {
        error := Some(InvalidXisf);
        return;
      }
      var tables := closed.value;
      Unlink(s, d.images, d.images, d.thumbnails, d.thumbnails, d.tables, tables, d.encoded, d.encoded);
      draft := d.(tables := tables);
      TablesHaveNoBlocks(d, tables);
    }

    method CloseImageElement(s: seq<Name>)
      requires error.None? && Consistent(s, draft, options) && s != [] && Top(s) == Image
      modifies this`draft, this`error
      ensures error.None? ==> Consistent(s[..|s| - 1], draft, options)
      ensures error.None? ==> TallyOf(draft) == TallyOf(old(draft))
      ensures error.None? ==> SameBlocks(old(draft), draft) && draft.encoded == old(draft).encoded
      ensures error.Some? ==> HandlerCode(error.value)
      ensures Unless(error, draft) == ElementEnded(Image, old(draft), options)
    {
      var d := draft;
      PropertyBlock(s, d);
      Unlink(s, d.images, d.images, d.thumbnails, d.thumbnails, d.tables, d.tables, d.encoded, d.encoded);
      hide GoodStack, Linked, ImagesOk, EntriesOk, ProfilesOk, AncillariesOk, ThumbnailsOk, TablesOk, EncodedOk;
      var made := CloseImage(d.images);
      if made.Err? {
        error := Some(made.error);
        return;
      }
      var images := made.value;
      Unlink(s, d.images, images, d.thumbnails, d.thumbnails, d.tables, d.tables, d.encoded, d.encoded);
      draft := d.(images := images);
    }

    method CloseThumbnailElement(s: seq<Name>)
      requires error.None? && Consistent(s, draft, options) && s != [] && Top(s) == Thumbnail
      modifies this`draft, this`error
      ensures error.None? ==> Consistent(s[..|s| - 1], draft, options)
      ensures error.None? ==> TallyOf(draft) == TallyOf(old(draft))
      ensures error.None? ==> SameBlocks(old(draft), draft) && draft.encoded == old(draft).encoded
      ensures error.Some? ==> HandlerCode(error.value)
      ensures Unless(error, draft) == ElementEnded(Thumbnail, old(draft), options)
    {
      var d := draft;
      PropertyBlock(s, d);
      Unlink(s, d.images, d.images, d.thumbnails, d.thumbnails, d.tables, d.tables, d.encoded, d.encoded);
      hide GoodStack, Linked, ImagesOk, EntriesOk, ProfilesOk, AncillariesOk, ThumbnailsOk, TablesOk, EncodedOk;
      var made := CloseThumbnail(d.thumbnails, |d.images.items|);
      if made.Err? {
        error := Some(made.error);
        return;
      }
      var thumbnails := made.value;
      Unlink(s, d.images, d.images, d.thumbnails, thumbnails, d.tables, d.tables, d.encoded, d.encoded);
      draft := d.(thumbnails := thumbnails);
    }

    /** The elements that may have an open block. */
    method CloseOwner(s: seq<Name>)
      requires error.None? && Consistent(s, draft, options) && s != [] && (Top(s) == Data || Top(s) == IccProfile || Top(s) == Property)
      modifies this`draft, this`error
      ensures error.None? ==> Consistent(s[..|s| - 1], draft, options)
      ensures error.None? ==> TallyOf(draft) == TallyOf(old(draft))
      ensures error.None? ==> SameBlocks(old(draft), draft) && NoneOpen(draft.encoded)
      ensures error.None? && !NoneOpen(old(draft).encoded) ==> EndsBlock(old(draft), options)
      ensures error.Some? ==> HandlerCode(error.value)
      ensures Unless(error, draft) == ElementEnded(Top(s), old(draft), options)
    {
      DataIsOpen(s, draft);
      hide Consistent, TallyOf, SameBlocks, EndsBlock, PropertyEnded, BlockEnded;
      if Top(s) == Data {
        CloseBlock(s);
      } else if Top(s) == IccProfile {
        CloseProfile(s);
      } else {
        CloseProperty(s);
      }
    }

    /** The others; no block is open when they end. */
    method CloseOther(s: seq<Name>)
      requires error.None? && Consistent(s, draft, options) && s != [] && Top(s) != Data && Top(s) != IccProfile && Top(s) != Property
      modifies this`draft, this`error
      ensures NoneOpen(old(draft).encoded)
      ensures error.None? ==> Consistent(s[..|s| - 1], draft, options)
      ensures error.None? ==> TallyOf(draft) == TallyOf(old(draft))
      ensures error.None? ==> SameBlocks(old(draft), draft) && draft.encoded == old(draft).encoded
      ensures error.Some? ==> HandlerCode(error.value)
      ensures Unless(error, draft) == ElementEnded(Top(s), old(draft), options)
    {
      var d := draft;
      PropertyBlock(s, d);
      hide Consistent, TallyOf, SameBlocks, TablePartEnded, NoneOpen;
      if Top(s) == Cell || Top(s) == Row || Top(s) == Structure || Top(s) == Table {
        CloseTablePart(s);
      } else if Top(s) == Thumbnail {
        CloseThumbnailElement(s);
      } else if Top(s) == Image {
        CloseImageElement(s);
      } else {
        TablesHaveNoBlocks(d, d.tables);
        PlainCloses(s, d, options);
      }
    }

    /** What `end_element` does to the lists. */
    method CloseElement(s: seq<Name>)
      requires error.None? && Consistent(s, draft, options) && s != []
      modifies this`draft, this`error
      ensures error.None? ==> Consistent(s[..|s| - 1], draft, options)
      ensures error.None? ==> TallyOf(draft) == TallyOf(old(draft))
      ensures error.None? ==> SameBlocks(old(draft), draft) && NoneOpen(draft.encoded)
      ensures error.None? && !NoneOpen(old(draft).encoded) ==> EndsBlock(old(draft), options)
      ensures error.Some? ==> HandlerCode(error.value)
      ensures Unless(error, draft) == ElementEnded(Top(s), old(draft), options)
    {
      hide Consistent, TallyOf, SameBlocks, EndsBlock, ElementEnded, NoneOpen;
      if Top(s) == Data || Top(s) == IccProfile || Top(s) == Property {
        CloseOwner(s);
      } else {
        CloseOther(s);
      }
    }

    /** A core element's uid is unique in the header. */
    method RegisterUid(s: seq<Name>, tag: Tag)
      requires error.None? && Consistent(s, draft, options)
      modifies this`draft, this`error
      ensures error.None? ==> Consistent(s, draft, options) && draft == old(draft).(coreUids := draft.coreUids)
      ensures error.None? ==> TallyOf(draft) == TallyOf(old(draft))
      ensures error.None? && IsCore(tag.name) && tag.uid != "" ==>
                tag.uid !in old(draft).coreUids && draft.coreUids == old(draft).coreUids + {tag.uid}
      ensures error.Some? ==> error.value == InvalidXisf
      ensures Unless(error, draft) == UidRegistered(tag, old(draft))
    {
      var d := draft;
      if IsCore(tag.name) && tag.uid != "" {
        if tag.uid in d.coreUids {
          error := Some(InvalidXisf);
          return;
        }
        hide GoodStack, Linked;
        draft := d.(coreUids := d.coreUids + {tag.uid});
        return;
      }
    }

    method ReferenceInTable(outer: seq<Name>, tag: Tag)
      requires error.None? && Consistent(outer, draft, options) && NoneOpen(draft.encoded)
      modifies this`draft, this`error
      ensures error.None? ==> Consistent(outer, draft, options) && draft == old(draft).(tables := draft.tables)
      ensures error.None? ==> TallyOf(draft) == TallyOf(old(draft))
      ensures error.Some? ==> HandlerCode(error.value)
      ensures Unless(error, draft) == TableReferenced(outer, tag, old(draft), options)
    {
      var d := draft;
      hide GoodStack, Linked, ImagesOk, EntriesOk, ProfilesOk, AncillariesOk, ThumbnailsOk, TablesOk, EncodedOk;
      if Parent(outer) != Table {
        return;
      }
      if d.tables.open.None? {
        error := Some(InvalidXisf);
        return;
      }
      var made := AddTableReference(d.tables, tag.id, |d.images.items|, options);
      if made.Err? {
        error := Some(made.error);
        return;
      }
      var tables := made.value;
      SameLinks(outer, d.images, d.thumbnails, d.tables, tables, d.encoded);
      draft := d.(tables := tables);
    }

    method ReferenceToMetadata(outer: seq<Name>, tag: Tag)
      requires error.None? && Consistent(outer, draft, options) && NoneOpen(draft.encoded)
      modifies this`draft, this`error
      ensures error.None? ==> Consistent(outer, draft, options) && draft == old(draft).(metadata := draft.metadata)
      ensures error.None? ==> TallyOf(draft) == TallyOf(old(draft))
      ensures error.None? ==> SameBlocks(old(draft), draft) && draft.encoded == old(draft).encoded
      ensures error.Some? ==> HandlerCode(error.value)
      ensures Unless(error, draft) == MetadataReferenced(outer, tag, old(draft), options)
    {
      var d := draft;
      hide GoodStack, Linked, ImagesOk, EntriesOk, ProfilesOk, AncillariesOk, ThumbnailsOk, TablesOk;
      var current := CurrentImage(d);
      CurrentInRange(d);
      if (Parent(outer) == Image && current.Some?) || Parent(outer) == Metadata {
        var made := AddMetadataReference(d.metadata, tag, if Parent(outer) == Image then ImageScope else UnitScope, current,
                                             |d.images.items|, options);
        if made.Err? {
          error := Some(made.error);
          return;
        }
        var metadata := made.value;
        draft := d.(metadata := metadata);
        return;
      }
    }

    method OpenReference(outer: seq<Name>, tag: Tag)
      requires error.None? && Consistent(outer, draft, options) && NoneOpen(draft.encoded) && outer != []
      modifies this`draft, this`error
      ensures error.None? ==> Consistent(outer + [Reference], draft, options)
      ensures error.None? ==> TallyOf(draft) == Counted(TallyOf(old(draft)), Reference)
      ensures error.None? ==> SameBlocks(old(draft), draft) && draft.encoded == old(draft).encoded
      ensures error.Some? ==> HandlerCode(error.value)
      ensures Unless(error, draft) == ReferenceStarted(outer, tag, old(draft), options)
    {
      var d := draft;
      if tag.fault != NoFault {
        error := Some(InvalidXisf);
        return;
      }
      draft := d.(references := d.references + [tag.id],
                  thumbnailReferences := d.thumbnailReferences + if Parent(outer) == Thumbnail then [tag.id] else []);
      hide GoodStack, Linked, ImagesOk, EntriesOk, ProfilesOk, AncillariesOk, ThumbnailsOk, TablesOk, EncodedOk;
      ReferenceInTable(outer, tag);
      if error.None? {
        ReferenceToMetadata(outer, tag);
      }
      if error.None? {
        PlainIsConsistent(outer, Reference, draft, options);
      }
    }

    /** The elements that may have a block in the header's text. */
    method OpenOwner(outer: seq<Name>, tag: Tag)
      requires error.None? && Consistent(outer, draft, options) && NoneOpen(draft.encoded) && OwnsBlock(tag.name)
      modifies this`draft, this`error
      ensures error.None? ==> Consistent(outer + [tag.name], draft, options)
      ensures error.None? ==> TallyOf(draft) == Counted(TallyOf(old(draft)), tag.name)
      ensures error.None? ==> KeepsBlocks(old(draft), draft) && Begins(outer, tag, draft)
      ensures error.Some? ==> HandlerCode(error.value)
      ensures Unless(error, draft) == KindStarted(outer, tag, old(draft), options)
    {
      var d := draft;
      ConsistentLists(outer, d, options);
      hide Consistent, ListsOk, BlocksGrow, KeepsBlocks, Begins, KindStarted;
      OpenOwnerKind(outer, tag);
      if error.None? {
        ConsistentLists(outer + [tag.name], draft, options);
        GrowingKeeps(d, draft, options);
      }
    }

    method OpenOwnerKind(outer: seq<Name>, tag: Tag)
      requires error.None? && Consistent(outer, draft, options) && NoneOpen(draft.encoded) && OwnsBlock(tag.name)
      modifies this`draft, this`error
      ensures error.None? ==> Consistent(outer + [tag.name], draft, options)
      ensures error.None? ==> TallyOf(draft) == Counted(TallyOf(old(draft)), tag.name)
      ensures error.None? ==> BlocksGrow(old(draft), draft) && Begins(outer, tag, draft)
      ensures error.Some? ==> HandlerCode(error.value)
      ensures Unless(error, draft) == KindStarted(outer, tag, old(draft), options)
    {
      hide Consistent, BlocksGrow, Begins, TallyOf;
      hide ProfileStarted, ThumbnailStarted, DataStarted, ImageStarted, EntryStarted;
      match tag.name {
      case IccProfile =>
        OpenProfile(outer, tag);
      case Thumbnail =>
        OpenThumbnail(outer, tag);
      case Data =>
        OpenData(outer, tag);
      case Image =>
        OpenImage(outer, tag);
      case Property =>
        OpenEntry(outer, tag, true);
      case FitsKeyword =>
        OpenEntry(outer, tag, false);
      }
    }

    /** All others below the root. */
    method OpenOther(outer: seq<Name>, tag: Tag)
      requires error.None? && Consistent(outer, draft, options) && NoneOpen(draft.encoded) && outer != [] && !OwnsBlock(tag.name)
      modifies this`draft, this`error
      ensures error.None? ==> Consistent(outer + [tag.name], draft, options)
      ensures error.None? ==> TallyOf(draft) == Counted(TallyOf(old(draft)), tag.name)
      ensures error.None? ==> SameBlocks(old(draft), draft) && draft.encoded == old(draft).encoded
      ensures error.Some? ==> HandlerCode(error.value)
      ensures Unless(error, draft) == KindStarted(outer, tag, old(draft), options)
    {
      hide GoodStack, Linked, ListsOk, Consistent;
      hide TableStarted, StructureStarted, FieldStarted, RowStarted, CellStarted, AncillaryStarted, MetadataStarted, ReferenceStarted;
      match tag.name
      case Reference =>
        OpenReference(outer, tag);
      case Table =>
        OpenTable(outer, tag);
      case Structure =>
        OpenStructure(outer, tag);
      case Field =>
        OpenField(outer, tag);
      case Row =>
        OpenRow(outer);
      case Cell =>
        OpenCell(outer, tag);
      case Ancillary =>
        OpenAncillary(outer, tag);
      case Metadata =>
        OpenMetadata(outer);
      case _ =>
        PlainIsConsistent(outer, tag.name, draft, options);
    }

    /** The part of `start_element` that looks at the kind of element, below the root. */
    method OpenElement(outer: seq<Name>, tag: Tag)
      requires error.None? && Consistent(outer, draft, options) && NoneOpen(draft.encoded) && outer != []
      modifies this`draft, this`error
      ensures error.None? ==> Consistent(outer + [tag.name], draft, options)
      ensures error.None? ==> TallyOf(draft) == Counted(TallyOf(old(draft)), tag.name)
      ensures error.None? ==> KeepsBlocks(old(draft), draft) && Begins(outer, tag, draft)
      ensures error.Some? ==> HandlerCode(error.value)
      ensures Unless(error, draft) == ElementStarted(outer, tag, old(draft), options)
    {
      hide Consistent, KeepsBlocks, SameBlocks, Begins, KindStarted, UidRegistered;
      ghost var first := draft;
      RegisterUid(outer, tag);
      if error.Some? {
        return;
      }
      ghost var second := draft;
      if OwnsBlock(tag.name) {
        OpenOwner(outer, tag);
      } else {
        OpenOther(outer, tag);
        if error.None? {
          OtherOpens(outer, tag, second, draft);
        }
      }
      if error.None? {
        UidsDoNotMatter(first, second, draft);
      }
    }

    method TextInCell(s: seq<Name>, text: string, blank: bool)
      requires error.None? && Consistent(s, draft, options) && draft.tables.openCell.Some?
      modifies this`draft, this`error
      ensures error.None? ==> Consistent(s, draft, options) && TallyOf(draft) == TallyOf(old(draft))
      ensures error.Some? ==> HandlerCode(error.value)
      ensures TablesOpen(old(draft).tables)
      ensures error.None? <==> CellAllows(old(draft).tables, text, blank, options)
      ensures error.None? ==> draft == old(draft).(tables := WithCellText(old(draft).tables, text))
    {
      var d := draft;
      TablesAreOpen(d.tables, |d.images.items|);
      hide GoodStack, Linked, ImagesOk, EntriesOk, ProfilesOk, AncillariesOk, ThumbnailsOk, TablesOk, EncodedOk, TablesOpen;
      hide CellAllows, WithCellText;
      var made := CellText(d.tables, text, blank, |d.images.items|, options);
      if made.Err? {
        error := Some(made.error);
        return;
      }
      var tables := made.value;
      SameLinks(s, d.images, d.thumbnails, d.tables, tables, d.encoded);
      draft := d.(tables := tables);
    }

    method TextInEntry(s: seq<Name>, text: string)
      requires error.None? && Consistent(s, draft, options) && draft.metadata.open.Some?
      modifies this`draft, this`error
      ensures error.None? ==> Consistent(s, draft, options) && TallyOf(draft) == TallyOf(old(draft))
      ensures error.Some? ==> HandlerCode(error.value)
      ensures InRange(old(draft).metadata.open, |old(draft).metadata.items|)
      ensures error.None? <==> EntryAllows(old(draft).metadata, text, options)
      ensures error.None? ==> draft == old(draft).(metadata := WithEntryText(old(draft).metadata, text))
    {
      var d := draft;
      EntryBlocks(d.metadata, |d.images.items|);
      hide GoodStack, Linked, ImagesOk, EntriesOk, ProfilesOk, AncillariesOk, ThumbnailsOk, TablesOk;
      var made := EntryText(d.metadata, text, |d.images.items|, options);
      if made.Err? {
        error := Some(made.error);
        return;
      }
      var metadata := made.value;
      draft := d.(metadata := metadata);
    }

    /** An element outside the XISF namespace: only directly below the root, and within its budgets. */
    method NoteExtension(tag: Tag) returns (r: Result<Option<nat>>)
      modifies this`extensions
      ensures r.Err? ==> HandlerCode(r.error)
      ensures r.Ok? ==> |old(extensions).items| <= |extensions.items| && InRange(r.value, |extensions.items|)
      ensures r.Ok? && depth > 1 && tag.name.Foreign? ==> depth == 2 && Parent(stack.elements) == Xisf
      ensures r.Ok? ==> (r.value.Some? <==> depth > 1 && tag.name.Foreign?)
      ensures (if r.Ok? then Some((r.value, extensions)) else None)
           == ExtensionNoted(depth, stack.elements, old(extensions), CurrentImage(draft), tag, options)
    {
      if depth <= 1 || !tag.name.Foreign? {
        return Ok(None);
      }
      if depth != 2 || Parent(stack.elements) != Xisf {
        return Err(InvalidXisf);
      }
      if |extensions.items| >= options.maxExtensions {
        return Err(ResourceLimit);
      }
      var attributes := Consume(extensions.attributes, tag.attributes, options.maxExtensionAttributes);
      var bytes := Consume(extensions.bytes, tag.bytes, options.maxExtensionBytes);
      if attributes.None? || bytes.None? {
        return Err(ResourceLimit);
      }
      var index := |extensions.items|;
      extensions := Extensions(extensions.items + [Extension(CurrentImage(draft), "")], attributes.value, bytes.value);
      return Ok(Some(index));
    }

    /** A start tag with an attachment claims its range of the file. */
    method ClaimRange(tag: Tag)
      requires error.None?
      modifies this`attachedRanges, this`error
      ensures error == if BadAttachment(tag) then Some(InvalidXisf) else None
      ensures error.None? ==> attachedRanges == old(attachedRanges) + RangesOf(tag)
    {
      AttachedHasPrefix(tag);
      hide ParseLocation, StartsWith;
      if tag.location.Some? && StartsWith(tag.location.value, "attachment:") {
        var block := ParseLocation(tag.location.value);
        if block.kind == Attachment {
          attachedRanges := attachedRanges + [AttachedRange(block.offset, block.size)];
        } else if !tag.name.Foreign? {
          Fail(InvalidXisf);
        }
      }
    }

    /** The first part of `start_element`: the limits, and a place on the stacks. */
    method Enter(tag: Tag)
      requires error.None? && Heights(stack, depth, |extensions.items|)
      modifies this`depth, this`nodes, this`stack, this`extensions, this`attachedRanges, this`error
      ensures error.Some? ==> HandlerCode(error.value)
      ensures error.None? ==>
                && Heights(stack, depth, |extensions.items|)
                && stack.elements == old(stack).elements + [tag.name]
                && (tag.name.Foreign? && depth > 1 ==> depth == 2 && Parent(old(stack).elements) == Xisf)
                && attachedRanges == old(attachedRanges) + RangesOf(tag)
      ensures Unless(error, View()) == Entered(old(View()), tag, options)
    {
      hide BadAttachment, RangesOf, ExtensionNoted;
      depth, nodes := depth + 1, nodes + 1;
      if depth > options.maxDepth || nodes > options.maxNodes || tag.attributes > options.maxAttributes {
        Fail(ResourceLimit);
        return;
      }
      var extension := NoteExtension(tag);
      if extension.Err? {
        Fail(extension.error);
        return;
      }
      stack := Stack(stack.elements + [tag.name], stack.extensions + [extension.value]);
      ClaimRange(tag);
    }

    /** The second part: the element among those that are open. */
    method Admit(tag: Tag, outer: seq<Name>)
      requires error.None? && stack.elements == outer + [tag.name] && Consistent(outer, draft, options) && (outer != [] ==> sawRoot)
      requires depth == |outer| + 1
      modifies this`sawRoot, this`draft, this`error
      ensures error.Some? ==> HandlerCode(error.value)
      ensures error.None? ==>
                Consistent(stack.elements, draft, options) && sawRoot && TallyOf(draft) == Counted(TallyOf(old(draft)), tag.name)
      ensures error.None? ==> NoneOpen(old(draft).encoded) && KeepsBlocks(old(draft), draft) && Begins(outer, tag, draft)
      ensures Unless(error, View()) == Admitted(outer, old(View()), tag, options)
    {
      hide Consistent;
      var parent := Parent(outer);
      if !NoneOpen(draft.encoded) || parent == Cell || parent == Field || (parent == Row && tag.name != Cell) {
        Fail(InvalidXisf);
        return;
      }
      if depth == 1 {
        if sawRoot || tag.name != Xisf || tag.fault != NoFault {
          Fail(InvalidXisf);
          return;
        }
        sawRoot := true;
        PlainIsConsistent(outer, Xisf, draft, options);
        return;
      }
      OpenElement(outer, tag);
    }

    /** `start_element`. */
    method StartElement(tag: Tag)
      requires Valid()
      modifies this
      ensures Valid()
      ensures old(error).Some? ==> error == old(error)
      ensures error.None? ==> stack.elements == old(stack).elements + [tag.name]
      ensures error.None? ==> attachedRanges == old(attachedRanges) + RangesOf(tag)
      ensures error.None? ==> TallyOf(draft) == Counted(TallyOf(old(draft)), tag.name)
      ensures error.None? ==> NoneOpen(old(draft).encoded) && KeepsBlocks(old(draft), draft) && Begins(old(stack).elements, tag, draft)
      ensures old(error).None? ==> Unless(error, View()) == StartTaken(old(View()), tag, options)
    {
      if error.Some? {
        return;
      }
      hide Consistent, Heights;
      var outer := stack.elements;
      assert |outer| == depth by {
        StackHeight(stack, depth, |extensions.items|);
      }
      Enter(tag);
      if error.None? {
        StackHeight(stack, depth, |extensions.items|);
        Admit(tag, outer);
      }
    }

    /** `end_element`; the parser calls it for the innermost open element. */
    method EndElement()
      requires Valid() && (error.None? ==> stack.elements != [])
      modifies this`error, this`draft, this`depth, this`stack, this`rootClosed
      ensures Valid()
      ensures old(error).Some? ==> error == old(error)
      ensures error.None? ==> stack.elements == old(stack).elements[..|old(stack).elements| - 1]
      ensures error.None? ==> TallyOf(draft) == TallyOf(old(draft))
      ensures error.None? ==> SameBlocks(old(draft), draft) && NoneOpen(draft.encoded)
      ensures error.None? && old(error).None? && !NoneOpen(old(draft).encoded) ==> EndsBlock(old(draft), options)
      ensures old(error).None? ==> Unless(error, View()) == EndTaken(old(View()), options)
    {
      if error.Some? {
        return;
      }
      hide Consistent, Heights, TallyOf, SameBlocks, EndsBlock, NoneOpen, EndTaken;
      EndOpenElement();
    }

    method EndOpenElement()
      requires Valid() && error.None? && stack.elements != []
      modifies this`error, this`draft, this`depth, this`stack, this`rootClosed
      ensures Valid()
      ensures error.None? ==>
                && stack.elements == old(stack).elements[..|old(stack).elements| - 1]
                && TallyOf(draft) == TallyOf(old(draft))
                && SameBlocks(old(draft), draft) && NoneOpen(draft.encoded)
                && (!NoneOpen(old(draft).encoded) ==> EndsBlock(old(draft), options))
      ensures Unless(error, View()) == EndTaken(old(View()), options)
    {
      hide Consistent, Heights, TallyOf, SameBlocks, EndsBlock, ElementEnded, NoneOpen;
      CloseElement(stack.elements);
      if error.None? {
        Leave();
      }
    }

    /** The last part of `end_element`: one element less on the stacks. */
    method Leave()
      requires error.None? && stack.elements != [] && Heights(stack, depth, |extensions.items|) && sawRoot
      requires Consistent(stack.elements[..|stack.elements| - 1], draft, options)
      modifies this`depth, this`stack, this`rootClosed
      ensures Valid()
      ensures stack.elements == old(stack).elements[..|old(stack).elements| - 1]
      ensures View() == old(View()).(depth := depth, stack := Popped(old(stack)), rootClosed := rootClosed)
      ensures old(depth) > 0 && depth == old(depth) - 1 && rootClosed == (old(rootClosed) || old(depth) == 1) && old(stack).extensions != []
    {
      hide Consistent, Heights;
      PopHeights(stack, depth, |extensions.items|);
      rootClosed := rootClosed || depth == 1;
      depth, stack := depth - 1, Popped(stack);
    }

    /** `character_data`; `blank` says that the text is white space. */
    method CharacterData(text: string, blank: bool)
      requires Valid()
      modifies this`error, this`draft, this`extensions
      ensures Valid()
      ensures error.None? ==> TallyOf(draft) == TallyOf(old(draft))
      ensures old(error).Some? || text == "" ==> error == old(error) && draft == old(draft) && extensions == old(extensions)
      ensures old(error).None? && text != "" && !NoneOpen(old(draft).encoded) ==>
                old(draft).encoded.encoding.Some? && E.InStep(old(draft).encoded.decoding) &&
                var next := E.Feed(RulesOf(old(draft).encoded, options), old(draft).encoded.decoding, text);
                if next.Going? then
                  error.None? && draft == WithBytes(old(draft), next.output).(encoded := old(draft).encoded.(decoding := next))
                else error.Some?
      ensures old(error).None? && text != "" && NoneOpen(old(draft).encoded) ==>
                && TextReady(old(stack), old(draft), |old(extensions).items|)
                && (error.None? <==> TextAllowed(old(stack), old(draft), old(depth), old(extensions), text, blank, options))
                && (error.None? ==> draft == DraftWithText(old(stack), old(draft), old(extensions), text)
                                    && extensions == ExtensionsWithText(old(stack), old(draft), old(extensions), text))
      ensures old(error).None? ==> Unless(error, View()) == TextTaken(old(View()), text, blank, options)
    {
      if error.Some? || text == "" {
        return;
      }
      OpenBlockIsReady(stack.elements, draft, options);
      hide Consistent, Heights, TextReady, TextAllowed, DraftWithText, ExtensionsWithText;
      if !NoneOpen(draft.encoded) {
        BlockText(stack.elements, text);
        return;
      }
      OtherText(text, blank);
    }

    /** Character data outside encoded blocks. */
    method OtherText(text: string, blank: bool)
      requires Valid() && error.None? && NoneOpen(draft.encoded)
      modifies this`error, this`draft, this`extensions
      ensures Valid()
      ensures error.None? ==> TallyOf(draft) == TallyOf(old(draft))
      ensures TextReady(old(stack), old(draft), |old(extensions).items|)
      ensures error.None? <==> TextAllowed(old(stack), old(draft), old(depth), old(extensions), text, blank, options)
      ensures error.None? ==> draft == DraftWithText(old(stack), old(draft), old(extensions), text)
                              && extensions == ExtensionsWithText(old(stack), old(draft), old(extensions), text)
    {
      TextIsReady(stack, depth, draft, |extensions.items|, options);
      hide Consistent, Heights, RefusesText, TablesOpen, CellAllows, WithCellText, EntryAllows, WithEntryText;
      if draft.tables.open.Some? && draft.tables.openRow.Some? && draft.tables.openCell.Some? {
        TextInCell(stack.elements, text, blank);
        return;
      }
      if stack.extensions != [] && stack.extensions[|stack.extensions| - 1].Some? {
        AppendExtensionText(stack.extensions[|stack.extensions| - 1].value, text);
        return;
      }
      if !blank && RefusesText(stack.elements, draft, depth) {
        Fail(InvalidXisf);
        return;
      }
      if draft.metadata.open.Some? {
        TextInEntry(stack.elements, text);
      }
    }

    method AppendExtensionText(index: nat, text: string)
      requires index < |extensions.items| && error.None?
      modifies this`error, this`extensions
      ensures (error.Some? ==> HandlerCode(error.value)) && |extensions.items| == |old(extensions).items|
      ensures error.None? <==> Consume(old(extensions).bytes, |text|, options.maxExtensionBytes).Some?
      ensures error.None? ==> extensions == AppendedTo(old(extensions), index, text)
    {
      var bytes := Consume(extensions.bytes, |text|, options.maxExtensionBytes);
      if bytes.None? {
        Fail(ResourceLimit);
        return;
      }
      var e := extensions.items[index];
      extensions := extensions.(bytes := bytes.value, items := extensions.items[index := e.(text := e.text + text)]);
    }
  }
}
