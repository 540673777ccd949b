# mmxisf in Dafny

mmxisf reads and writes monolithic XISF 1.0 (Revision 1) files. This project models the parts of
`src/writer.cpp` and `src/reader.cpp` where a mistake would lose or change bytes, and proves what
they keep. Where one file undoes what the other does, the theorem spans both.

| module | what it models |
|---|---|
| `Base`, `Mul`, `Text` | bytes, 64-bit sizes, results, products and quotients, numbers as text |
| `ByteShuffle`, `Descriptors`, `DescriptorGrammar`, `BlockPipeline` | one data block: shuffle, cut, compress, describe; parse, decompress, put back; the grammar of the descriptor texts |
| `Preparation` | when a block can be prepared, and into which pieces |
| `Readability` | which prepared blocks a reader can decode at all |
| `Locations`, `Layout`, `LayoutLimits`, `Emission`, `Ranges` | attachment offsets inside a header whose length depends on them; the emitted bytes; the reader's range and zero-gap checks |
| `Source`, `Pixels`, `Samples`, `ImageRead` | a byte source that may answer anything; sample order and byte order; the numbers that the bytes of a sample stand for; whole-image reads |
| `Rows`, `RowStream` | row delivery through one row buffer, refilled across subblocks and turned around in place |
| `EncodedText` | the streaming Base64 and hexadecimal decoder (RFC 4648) |
| `HeaderStack`, `HeaderLists`, `HeaderDraft`, `HeaderMachine` | the handlers that build a document from header events: the nesting of elements, the lists they fill, the draft as a value with every handler as a function of it, and the object whose methods are proved equal to these functions |
| `HeaderDocument`, `HeaderEvents`, `HeaderRun`, `Storage` | the resolution of references, the run over all events, where the header's blocks come from, and the planners that look them up |
| `HeaderValues`, `HeaderNesting`, `HeaderLoss` | which text becomes the value of a Property, in every accepted header |
| `HeaderRecords`, `HeaderBindings`, `HeaderTables` | what the lists of an accepted document hold, what is bound to what, and which structure each table has, said of the header's tags and texts alone |
| `HeaderReferences`, `HeaderLimits` | what acceptance asks of references, uids, names, places and numbers of elements |
| `HeaderScan` | the tags in the text of a header, found by a scanner that knows nothing of the writer |
| `HeaderSteps`, `HeaderPrinted`, `HeaderWritten` | the events of the headers that the writer prints, and their acceptance |
| `FileOpen`, `OpenWritten` | opening a file, from its first byte to the document; every emitted file opens |
| `CommitProtocol`, `CommitRuns`, `CommitProgress` | `write_file` among N concurrent calls, as a state machine over names and files |
| `EndToEnd` | a caller's pixels through a written file into a caller's buffer |
| `IntegerText`, `XmlText` | integer literals of any length against 8 to 128-bit ranges; UTF-8 restricted to XML characters; escaping |

A size or offset is the subset type `U64`, so every addition and product that the source makes on
64-bit numbers is a proof obligation; where the source checks for overflow, the check is in the
model. Code that changes things step by step is a method with its loops, buffers and fields, proved
against a function or predicate, and the theorems are about that function. Codecs and digests are
values (`Codec`, `Bytes -> Bytes`); that a codec's decompression undoes its compression is a
hypothesis of the theorems that need it. Sources and sinks are objects whose every answer is
arbitrary; `Supplies` and `Serves` say when one is faithful.

Three results are not plain confirmations:

* Not every block that the writer makes can be read. The reader refuses zlib pieces whose size
  exceeds 32 bits, before or after compression, and `compression_subblock_bytes` may ask for such
  pieces. `Readability.WideInputIsRefused` and `Readability.WideOutputIsRefused` say so for every
  lossless codec and every limit, and `Readability.OnePieceIsExact` has both directions for blocks of
  one piece. The condition a caller can check beforehand is that the piece width and the codec's bound
  of that width fit the decoder: `Readability.SafeWidthIsReadable` proves it sufficient for every block.
  It is also necessary for a codec that pads each input to the bound
  (`Readability.SafeWidthIsExact`); a codec that compresses better reads back more. Every LZ4 and
  Zstandard block meets the condition, and zlib blocks do up to 4 GiB - 2 MiB a piece.
  `Readability.WideInputWitness` is a block of 4 GiB that no reader decodes, whose size before
  compression decides; `Readability.WideOutputWitness` is one of 4 GiB - 1 with the padding codec (zlib
  itself makes less of its zeros).
* The layout loop can give up ("could not stabilize") although a consistent layout exists:
  `LayoutLimits.FourPassesAreNotEnough` has 700 one-byte Gray images at alignment 16, with the texts
  that `make_header` prints for them, that each of the four passes moves, while a fifth would have
  changed nothing. `Layout.StabilizeLayout` proves that four moving passes are the only cause of the
  error, and that it cannot occur while there are no more attached blocks than bytes in the alignment
  (16 blocks at alignment 16, 4096 at 4096): after the first pass no offset can grow by more than one
  digit.
* An element named `xisf` may be nested inside a header, and a Property inside it may stand inside
  another Property's text; the inner end tag then ends the outer text early.
  `HeaderLoss.TextIsLost` has, for all texts a and b, an accepted header whose description is a alone
  although b follows the inner element. `HeaderValues.ValueIsOwnText` is exact, and `HeaderRun.ParseHeader`
  proves it of every entry of every accepted header: a Property given as text has as its value a front
  part of the text of its own, what cells, extensions, blocks and inner Properties take aside, and all of
  it if and only if none of it follows the end tag of a Property nested in the element.
  `HeaderNesting.OneRootKeepsText` derives that no text is lost where only the root is named `xisf`.

## Model

| member | source | states |
|---|---|---|
| Base.CheckedMultiplyExact | src/writer.cpp:50-57 | the division test refuses exactly the products beyond 64 bits |
| ByteShuffle.IndexMapsAreInverse | src/writer.cpp:721-745 | the shuffle's index map and the scatter's undo each other on [0, size), partial last item included |
| ByteShuffle.ShuffledIsBytePlanes | src/writer.cpp:721-745 | the shuffled stream is byte plane after byte plane of the complete items, then the partial item |
| ByteShuffle.ShuffledRange | src/writer.cpp:721-745 | any range gathered straight from the block is that range of the shuffled stream |
| ByteShuffle.ScatterUnshuffled | src/reader.cpp:4220-4249 | a range of the stream reaches exactly the places its bytes came from; all other bytes stay |
| ByteShuffle.RoundTrip | src/reader.cpp:4220-4249 | unshuffling undoes shuffling and shuffling undoes unshuffling, for every item size |
| Descriptors.FormatSubblocks | src/writer.cpp:1383-1397 | the printing loop yields the `subblocks` text of the list |
| Descriptors.ParseCompressionPlan | src/reader.cpp:3358-3523 | the parsing loops accept exactly the texts, limits and codec names of the grammar and return that plan |
| Descriptors.AcceptedPlansAreConsistent | src/reader.cpp:3358-3523 | for arbitrary texts: an accepted plan's pieces add up to the serialized and the decoded size, none is empty, and every limit holds |
| Descriptors.DescriptorRoundTrip | src/reader.cpp:3358-3523 | parsing the printed texts returns the very plan, or a limit error exactly if a limit is exceeded |
| DescriptorGrammar.PlanIsExact | src/reader.cpp:3358-3523 | for all texts, sizes and limits and every plan: the reader takes the texts as this plan if and only if they spell it (`codec:size`, `codec+sh:size:item`, `c,u:c,u:...`, all numbers digits), no piece is empty, the numbers agree with the block and its declared type, and the limits hold |
| BlockPipeline.CompressPieces | src/writer.cpp:1311-1367 | the compression loop produces the pieces and sizes of the encoding, or its first error |
| BlockPipeline.PrepareBlock | src/writer.cpp:1270-1419 | the prepared block: stored bytes, spool decision, both descriptor texts, checksum, and every refusal; when it succeeds and how it cuts is settled by `PreparationIsExact` |
| Preparation.PreparationIsExact | src/writer.cpp:1270-1419 | with a lossless codec that keeps to a bound and a budget that covers it: InvalidArgument if and only if width or item size is zero or the block is wider than a piece and there is no scratch stem; success if and only if, besides, the number of pieces keeps to the limit; then the block is spooled exactly if it is wider than a piece, and its texts describe pieces of full width and a rest |
| Preparation.PlainIsExact | src/writer.cpp:1270-1419 | without a codec: success if and only if both byte limits admit the block, which is then emitted as it is |
| Preparation.ThreePieces | src/writer.cpp:1296-1304 | 10 MiB in pieces of 4 MiB: three pieces of 4, 4 and 2 MiB in a spool with a scratch stem, InvalidArgument without one |
| BlockPipeline.EncodingConserves | src/writer.cpp:1311-1367 | the pieces' input sizes add up to the block, their output sizes to the serialized bytes, none is empty, and both budgets hold |
| BlockPipeline.DecodeCompressedBlock | src/reader.cpp:4251-4296 | the destination receives the restored block or the first piece's error; bytes behind it stay |
| BlockPipeline.PiecesRoundTrip | src/reader.cpp:4251-4296 | decoding the pieces restores the stream, wherever it was cut, exactly if each piece fits the decoder |
| BlockPipeline.BlockRoundTrip | src/reader.cpp:4251-4296 | writer's bytes and texts read back: the original bytes if the reader's limits admit the block, a limit error if and only if they do not |
| Readability.SafeWidthIsReadable | src/reader.cpp:4251-4296 | a block whose piece width and the codec's bound of it fit the decoder is read back by every reader as generous as the writer |
| Readability.SafeWidthIsExact | src/reader.cpp:4022-4028 | for the padding codec, which expands every input to its bound, the safe width is exact: a block is read back if it is met, and refused by every reader if it is not |
| Readability.WideInputIsRefused | src/writer.cpp:1278-1286 | whatever its limits, the reader cannot decode a block whose first piece is wider than the decoder's sizes |
| Readability.Lz4BlocksAreReadable | src/writer.cpp:1278-1282 | the writer's clamp makes every LZ4 block readable |
| Readability.NarrowZlibBlocksAreReadable | src/writer.cpp:1282-1286 | zlib pieces up to 4 GiB - 2 MiB are readable |
| Readability.ZstdBlocksAreReadable | src/writer.cpp:1278-1287 | no Zstandard block is refused for its piece sizes |
| Readability.WideInputWitness | src/reader.cpp:4022-4028 | a prepared zlib block of 4 GiB, here with the padding codec, that every reader refuses for its size before compression |
| Readability.WideOutputIsRefused | src/reader.cpp:4022-4028 | with any lossless codec and any limits, a block with a piece whose compressed size exceeds the decoder's sizes is refused |
| Readability.OnePieceIsExact | src/reader.cpp:4022-4028 | with any lossless codec, a block of one piece is read back if and only if the piece and what it compresses to fit the decoder |
| Readability.WideOutputWitness | src/reader.cpp:4022-4028 | with the padding codec, a prepared block one byte below 4 GiB, refused because it grows by compression |
| Layout.AlignUpIsLeast | src/writer.cpp:72-83 | the least multiple not below the value; refused exactly if it does not fit |
| Layout.PlanBlocks | src/writer.cpp:1858-1913 | offsets of all blocks and the end of the last, or overflow |
| Layout.PlacementIsInOrder | src/writer.cpp:1858-1913 | blocks are aligned, disjoint, in order, each gap below one alignment |
| Layout.MakeHeader | src/writer.cpp:940-1048 | the header text for given block locations, images with their children and then the unit's; which tags it holds, with which locations, is settled by `HeaderScans` |
| HeaderScan.HeaderScans | src/writer.cpp:940-1048 | the tags of the header's text, read off it by a scanner: every image and entry once, in its place, with its attributes and last the location with offset and size of its own block |
| HeaderScan.TextShows | src/writer.cpp:529-607 | whatever events report the tags of that text show for everything printed the offset and size of its own block |
| HeaderScan.TagBegins | src/writer.cpp:529-607 | a start tag printed with escaped attribute values is read back with its name and attributes |
| HeaderScan.ElementPasses | src/writer.cpp:529-607 | so are whole elements without a block, empty or around escaped text |
| Layout.PrintedOnce | src/writer.cpp:940-1048 | every block-backed property is printed at most once, and exactly once if the image it names exists |
| Layout.HeaderGrowth | src/writer.cpp:940-1048 | moving blocks up never shortens the header and adds at most 18 characters for every printed block, or one if no offset grows more than tenfold |
| Layout.NextOffsetIsMonotone | src/writer.cpp:1915-1951 | one pass of the loop is monotone in the offset, and moves on by no more than the characters that the printed blocks can still grow by, rounded up |
| Layout.StabilizeLayout | src/writer.cpp:1915-1960 | success is the least consistent layout with every printed offset true, within four passes; overflow means that none exists; "could not stabilize" if and only if four passes all move the blocks, never while there are at most as many blocks as bytes in the alignment; three passes do while 18 x blocks <= alignment |
| LayoutLimits.FourPassesAreNotEnough | src/writer.cpp:1922-1951 | 700 images with the texts that `make_header` prints have a consistent layout, and the loop gives up on them |
| Locations.LocationRoundTrip | src/reader.cpp:731-757 | the reader recovers offset and size from the location text the writer printed |
| Emission.ByteSink.Write | include/mmxisf/byte_sink.hpp:12-21 | a sink takes any front part of a request, or fails |
| Emission.WriteAll | src/writer.cpp:1158-1179 | everything or an error, in both cases the sink has a front part of the request; a sink that takes something of every offer makes it everything |
| Emission.WriteSpool | src/writer.cpp:1181-1217 | the spool's bytes in bounded chunks; with a sink that progresses, success exactly for the expected size |
| Emission.EmitFile | src/writer.cpp:1980-2065 | the accepted bytes are a prefix of the one file image; on success all of it, with flush after the last byte; a sink that progresses and flushes succeeds exactly if every spool has its size; what the image holds is settled by `HeaderIsInPlace`, `BlockIsInPlace` and `GapsAreZero` |
| Emission.WrittenFileIsAcceptable | src/reader.cpp:4416-4468 | every emitted file passes the range check, all other payload bytes are zero, and the unused-space check passes exactly if the budget covers the padding |
| Emission.BlockIsInPlace | src/writer.cpp:1997-2061 | every block's bytes lie where the header says: the bytes in memory, or the spool's if it has its size |
| Emission.GapsAreZero | src/writer.cpp:1996-2051 | every payload byte outside the blocks is zero |
| Emission.HeaderIsInPlace | src/writer.cpp:1985-1989 | every file image begins with the eight characters of the signature, the length of its header as four bytes, the least significant first, four zeros, and the header itself |
| Ranges.AcceptableIsOrderFree | src/reader.cpp:3188-3205 | acceptability does not depend on the order of the ranges |
| Ranges.CheckRanges | src/reader.cpp:3188-3205 | accepts exactly non-empty, in-payload, pairwise disjoint ranges |
| Ranges.ValidateUnusedSpaces | src/reader.cpp:4416-4468 | for a faithful source: accepts exactly if all uncovered bytes are zero and within the budget |
| Ranges.CheckPayload | src/reader.cpp:4416-4468 | both checks together are exact for every range list in any order and every source with short reads |
| Ranges.UnusedTotal | src/reader.cpp:4416-4468 | the uncovered total is the payload less the blocks |
| FileOpen.ReadHeader | src/reader.cpp:4545-4584 | over a source that serves the file: succeeds if and only if there is a header between the limits that the file begins with, and returns it |
| FileOpen.Open | src/reader.cpp:4535-4610 | over such a source: succeeds if and only if the file begins with a header that the parser and the handlers accept and the payload outside the blocks is zero and within the budget; the document is that of its events |
| OpenWritten.WrittenFileOpens | src/reader.cpp:4535-4610 | every file image whose header text reports its own tags opens if and only if the header keeps to its limit and the padding to its budget |
| OpenWritten.OpenedImages | src/reader.cpp:4535-4610 | the images of the document of such a file are the printed ones, in order, each with the offset and size of its own block |
| Source.ByteSource.ReadAt | include/mmxisf/byte_source.hpp:13-20 | the source's contract: any answer, bytes only in the front of the span |
| Source.ReadExact | src/reader.cpp:678-699 | all bytes or an error; a faithful source makes it succeed; the rest of the buffer stays |
| Source.ReadChunk | src/reader.cpp:3898-3936 | the chunk is what the source handed over, or the embedded bytes; nothing else in the buffer changes |
| Source.CopySerialized | src/reader.cpp:3938-3957 | the whole block in bounded chunks |
| Pixels.CheckedByteCountExact | src/reader.cpp:3724-3745 | the three checked products accept exactly the geometries whose bytes fit in 64 bits |
| Pixels.RemapInverts | src/reader.cpp:4298-4336 | Planar to Normal and back is the identity on samples, within bounds |
| Pixels.DeliveryInverts | src/reader.cpp:4298-4336 | delivering there and back restores every byte, complex samples and endian swap included |
| Pixels.SwappedTwice | src/reader.cpp:4400-4414 | the endian swap is an involution per component |
| Pixels.SameStorageDelivery | src/reader.cpp:4715-4782 | without a storage change, delivery is the plain copy or the in-place swap |
| Samples.DeliveredIsSamePicture | src/reader.cpp:4298-4336 | the sample at every channel, column and row of a delivered image, as the number that its bytes stand for in the output order (for complex formats a real and an imaginary one), is the one stored there in the plan's order |
| Samples.HalvesTurned | src/reader.cpp:3254-3271 | the real and the imaginary half of a complex sample keep their numbers, each for itself |
| ImageRead.PlansAreValid | src/reader.cpp:3693-3784 | for arbitrary attributes: an accepted plan's block, codec descriptor and geometry describe the same bytes, inside the file and the limits |
| ImageRead.PlansAreExact | src/reader.cpp:3693-3784 | a plan exists if and only if the product of extents and sample width keeps to the limits, the texts spell the plan for that size, and an attached block ends inside the file |
| ImageRead.SwapInPlace | src/reader.cpp:4400-4414 | every component turned around, bytes behind the image untouched |
| ImageRead.TransformFromBuffer | src/reader.cpp:4298-4336 | the destination is the delivery of the buffer |
| ImageRead.TransformChunked | src/reader.cpp:4338-4398 | the destination is the delivery of exactly the bytes that the source handed over, chunk by chunk |
| ImageRead.DeliverSerialized | src/reader.cpp:4715-4760 | the staged paths agree with the one specification |
| ImageRead.ReadImageInto | src/reader.cpp:4690-4791 | on every path success is the delivery of one serialized string that was read and whose digest matches, and the destination holds the same picture, sample by sample, as the stored bytes; a faithful source decides the outcome |
| ImageRead.PathsAgree | src/reader.cpp:4690-4791 | the result for any storage and byte order converts into the result for any other |
| EndToEnd.PlanFindsPicture | src/reader.cpp:3693-3784 | from what the writer printed for a picture the reader plans the picture's own bytes in the file, and they decode to its pixels if and only if the reader's limits admit it |
| EndToEnd.SafeIsAdmitted | src/reader.cpp:3693-3784 | with a safe piece width, a generous reader admits every picture that its image limits allow |
| EndToEnd.WrittenIsInFile | src/writer.cpp:1980-2065 | the files that the writer's layout describes are such file images, whatever other blocks they hold |
| EndToEnd.ReadWritten | src/reader.cpp:4690-4791 | reading a picture from a file image the writer emits, handed out in any portions: success if and only if limits and buffer admit it, and then the very pixels in the storage and byte order asked for, every sample with the value that the caller of the writer gave |
| Rows.RowFromIsStable | src/reader.cpp:4987-5006 | reading on changes no row that is complete |
| Rows.RowsAreSlices | src/reader.cpp:4936-4965 | a row gathered from stored bytes and turned around is the matching slice of the Planar image |
| RowStream.RowDelivery.EmitPlaneRow | src/reader.cpp:4911-4935 | the row offered is the one the stored bytes call for, although the buffer is turned around in place |
| RowStream.RowDelivery.GatherPlane | src/reader.cpp:4946-4956 | the plane buffer is one channel of the stored row |
| RowStream.RowDelivery.EmitSourceRow | src/reader.cpp:4936-4965 | one stored row becomes one row or one per channel, in order, and the counters follow |
| RowStream.RowDelivery.FeedDecoded | src/reader.cpp:4987-5006 | a decoded piece of any length, refilling the row buffer across piece boundaries |
| RowStream.RowDelivery.CheckExtent | src/reader.cpp:5043-5054 | the closing extent checks never fail on a valid plan, and the counts they compare are those of the image |
| RowStream.VerifyStreaming | src/reader.cpp:4165-4218 | a full pass over the block whose digest matches |
| RowStream.AdvancedNext | src/reader.cpp:5009-5042 | decoding piece by piece is decoding the whole block, whatever bytes are still to come |
| RowStream.CheckRows | src/reader.cpp:4802-4866 | the refusals before anything is read; the products cannot overflow |
| RowStream.RefusalIsExact | src/reader.cpp:4802-4866 | nothing is refused if and only if both options are positive, width times sample width (times channels for Normal storage) keeps to the row limit, every piece to the subblock limit, and a shuffled block has one piece; InvalidArgument exactly for the options |
| RowStream.ReadImageRows | src/reader.cpp:4793-5082 | rows only after a verified full pass; success means limits kept and exactly height x channels rows of one string that was read and whose digest matches, their samples the numbers stored; with the limits kept, a faithful source and a willing consumer, it succeeds if and only if the digest matches and the block decodes; on every exit the offered rows are those of the decoded front of the bytes read, and the first rows of the block's image if the source supplies it |
| RowStream.OfferedRowsAreSlices | src/reader.cpp:4936-4965 | rows of a front of the decoded bytes are, in order, slices of the Planar image |
| RowStream.StreamingRefinesWholeRead | src/reader.cpp:4793-5082 | each row is the matching slice of what the whole read leaves in a Planar buffer, in the stated order |
| EncodedText.Decoder.DecodeQuartet | src/reader.cpp:1028-1066 | the quartet's bytes, or refusal of bad or noncanonical padding |
| EncodedText.Decoder.DecodeText | src/reader.cpp:1068-1132 | the decoder's state is the fold of the text |
| EncodedText.Decoder.Close | src/reader.cpp:2576-2586 | the output is released exactly if no quartet or byte is unfinished |
| EncodedText.PieceByPiece | src/reader.cpp:1068-1132 | any split of the text into pieces gives the same state |
| EncodedText.AcceptsExactlyCanonical | src/reader.cpp:1028-1132 | accepted with output B if and only if the text without XML white space is the canonical encoding of B and both limits hold |
| HeaderStack.PushKeeps | src/reader.cpp:1238-1277 | an element that is let in keeps the nesting rules; a kind with an open index is never nested in itself |
| HeaderStack.PopKeeps | src/reader.cpp:2563-2703 | closing the innermost element leaves every other kind open or closed as it was |
| HeaderLists.AddTable | src/reader.cpp:1356-1424 | a table, its uid and its binding; list invariants and earlier tables stay |
| HeaderLists.AddStructure | src/reader.cpp:1426-1472 | a structure, standalone or inside the open table |
| HeaderLists.AddCell | src/reader.cpp:1526-1627 | a cell in the open row with its form, location and extents; open indices stay in range |
| HeaderLists.AddImageData | src/reader.cpp:2062-2123 | an embedded image takes exactly one Data |
| HeaderLists.CloseImage | src/reader.cpp:2674-2687 | an embedded image cannot close without its Data |
| HeaderLists.AddEntry | src/reader.cpp:2314-2560 | an entry, its empty block and the event that binds it to the image or the unit around it; scope image if and only if inside an Image |
| HeaderDraft.Unlink | src/reader.cpp:2563-2703 | when an element closes, the index that stands for it is open: the "unexpected closing" branches are dead |
| HeaderMachine.XmlBuilder.OpenElement | src/reader.cpp:1296-2560 | every kind of element keeps all list invariants and counts once |
| HeaderMachine.XmlBuilder.CloseElement | src/reader.cpp:2568-2688 | likewise for closing |
| HeaderMachine.XmlBuilder.BlockText | src/reader.cpp:2711-2715 | text in an open block advances the decoder by exactly that text and stores its output in that block |
| HeaderMachine.XmlBuilder.StartElement | src/reader.cpp:1134-2561 | keeps the run invariant; refused exactly where the state, the limits and the element's own attributes call for it, and otherwise the new state is exactly the one its function gives; counts the element once, claims its range of the file; every block but one that the element opens is as it was, and that one belongs to this element and is empty |
| HeaderMachine.XmlBuilder.EndElement | src/reader.cpp:2563-2703 | keeps the run invariant; exactly the new state of its function, or refusal exactly where that has none; a block closes only where its text may end, and no block changes |
| HeaderMachine.XmlBuilder.CharacterData | src/reader.cpp:2705-2805 | text goes to the open block's decoder, else to the open cell, else to the open extension, else to the open Property, and is refused exactly where none takes it or a budget is spent; that it is added behind the earlier text is settled for whole runs by `RecordsOf` and `ValuesOf` in `ParseHeader` |
| HeaderDocument.BindMetadata | src/reader.cpp:3005-3039 | exactly the bindings the events ask for, all in range; refused exactly for misplaced references; the internal-error branch is dead |
| HeaderDocument.BindObjects | src/reader.cpp:3040-3151 | direct and referenced bindings in order, all in range, so the internal-error branches are dead |
| HeaderDocument.ResolveStructures | src/reader.cpp:2908-2929 | accepts exactly if every reference names a standalone structure and no table has two references, or one beside its own; each table ends with the one named; the internal-error branch is dead |
| HeaderDocument.CheckTables | src/reader.cpp:2930-3004 | accepts exactly tables with one structure, the declared numbers of rows and columns, and in every row one cell for each field in the form the field's type asks for |
| HeaderDocument.CheckNames | src/reader.cpp:3152-3187 | sets per association detect exactly the duplicate identifiers of properties and tables; the internal-error branch is dead |
| HeaderDocument.Finish | src/reader.cpp:2874-3187 | a finished draft becomes a document, exactly if the mandatory metadata are there, references resolve, tables are complete, names differ and bindings keep to their limits; its every cross index is valid |
| HeaderRun.ParseHeader | src/reader.cpp:2823-3221 | for every list of events: accepted exactly if the run of the handlers as functions ends with all elements closed, a draft that can be finished and acceptable ranges, and the document is that draft's; it is consistent, claims disjoint ranges inside the payload, each block in its text is what one element's whole text canonically encodes; said of the events alone: every list holds one record for each start tag of its kind in order, with its attributes, image and place, the text of a cell is its value attribute and the text events directly inside it, that of an extension the same, the value of an entry its attribute or its text in the sense of `ValueIsOwnText`; every binding is one that a place or a reference asks for; every table has the structure it names or holds; no internal error on any path |
| HeaderRecords.TablesAreDetermined | src/reader.cpp:1356-1627 | the records name every table, row and cell with its text: two lists with the same records differ at most in structures |
| HeaderReferences.ReferencesAreExact | src/reader.cpp:2876-2898 | in every run that is not stopped no two core elements share a uid and no mandatory value comes twice; the checks behind the last event succeed if and only if there is one Metadata element with both mandatory values, every Reference names a core element of the header, and none inside a thumbnail a thumbnail |
| HeaderReferences.AcceptedIsResolved | src/reader.cpp:2823-3221 | all of this holds of every accepted header |
| HeaderReferences.NamesAreExact | src/reader.cpp:3152-3187 | the reader's sets find a duplicate if and only if two properties, two tables, or a property and a table of one image, or two properties of the unit, have equal identifiers |
| HeaderReferences.DocumentNamesDiffer | src/reader.cpp:3152-3187 | no accepted document has such a pair |
| HeaderReferences.ElementsStand | src/reader.cpp:1268-1296 | every element of a run that is not stopped stands where its kind may: the table of allowed surroundings for all kinds |
| HeaderLimits.RunKeepsLimits | src/reader.cpp:1147-1166 | a run that is not stopped has counted every element and kept to every limit of the reader |
| HeaderValues.ValueIsOwnText | src/reader.cpp:2763-2787 | the value of a Property given as text is a front part of the text of its own, and all of it if and only if none of it follows the end tag of a Property nested in the element |
| HeaderNesting.OneRootKeepsText | src/reader.cpp:2314-2320 | in every accepted run with no element named `xisf` below the root, no Property loses text |
| HeaderLoss.TextIsLost | src/reader.cpp:2763-2787 | for all texts a and b, an accepted header whose outer Property has the value a although its own text goes on with b |
| HeaderPrinted.PrintedIsAccepted | src/writer.cpp:940-1048 | the events of a header with the elements that `make_header` prints, in its order, are accepted within the reader's limits if the names differ and the ranges are acceptable |
| HeaderWritten.WrittenHeaderIsAccepted | src/writer.cpp:1915-1960 | so are those of every written file, whose start tags show the locations of the layout (`TextShows`): that each block is printed at most once makes the claimed ranges disjoint |
| HeaderRun.EmbeddedIsInText | src/reader.cpp:2674-2687 | every embedded or inline block of an accepted document is one of those |
| Storage.ImageStorage | src/reader.cpp:3694-3772 | the block of any image of an accepted document: the unchecked second index is in range |
| Storage.ThumbnailStorage | src/reader.cpp:3784-3851 | likewise for thumbnails; "storage is inconsistent" is dead |
| Storage.ProfileStorage | src/reader.cpp:3557-3584 | likewise for ICC profiles |
| Storage.PropertyStorage | src/reader.cpp:3608-3667 | likewise for properties, with the bytes that type and extents call for, refused exactly where the extents are incomplete or a product exceeds 64 bits |
| Storage.TypedBytesAreExact | src/reader.cpp:3608-3667 | the typed extent is the product of the extents and the element size, and is there if and only if the extents of the type are and no product exceeds 64 bits |
| CommitProtocol.PathsAreDistinct | src/writer.cpp:1752-1762 | temporary, spools and destination of one call never share a path |
| CommitProtocol.StepKeepsInvariant | src/writer.cpp:1050-1156 | every atomic step keeps: tracked names lead to own files, committed names to whole files, old names untouched |
| CommitProtocol.RunKeepsInvariant | src/writer.cpp:1050-1156 | so does every interleaving of N calls |
| CommitRuns.OnlyOwnNames | src/writer.cpp:1219-1232 | no call removes or replaces a name it did not create, or changes another call's files |
| CommitRuns.CommitIsPermanent | src/writer.cpp:2062-2083 | from its link on, a destination holds its writer's complete bytes for ever |
| CommitRuns.AtMostOneSuccess | src/writer.cpp:2062-2083 | one success per destination |
| CommitRuns.AppearedIsComplete | src/writer.cpp:1964-1974 | a new name that is nobody's temporary is some call's complete file |
| CommitRuns.SpoolReadsBack | src/writer.cpp:1181-1217 | a spool reopened by path holds what the call itself wrote |
| CommitRuns.NothingLeftBehind | src/writer.cpp:1219-1232 | after all have returned: the old names, the committed destinations and the files whose removal failed, nothing else |
| CommitRuns.ExactlyOneSucceeds | tests/writer_test.cpp:1492-1533 | with destination and private files absent and no I/O error but failed removals, exactly one of N calls succeeds, in every interleaving |
| CommitProgress.NoCallIsStuck | src/writer.cpp:1050-1156 | in every reached state each call that has not returned has a step to take, other than an abort or a failed removal |
| CommitProgress.ContestIsDecided | tests/writer_test.cpp:1492-1533 | a run in which all have returned and one call has succeeded exists, for calls with and without spools |
| CommitProgress.ExistingIsRefused | src/writer.cpp:1964-1974 | a call whose destination exists beforehand fails and creates no file |
| IntegerText.MaximumIsLimit | src/writer.cpp:299-332 | the limit strings of the table are the limits of the types |
| IntegerText.MagnitudeDecides | src/reader.cpp:172-175 | comparing lengths and then strings compares the numbers |
| IntegerText.PrefixedDecides | src/reader.cpp:212-238 | lengths and leading digit compare a binary, octal or hexadecimal number with two to the width |
| IntegerText.ReaderAccepts | src/reader.cpp:240-293 | the reader's sequence of tests decides what `ValidityIsExact` characterises |
| IntegerText.WriterAccepts | src/writer.cpp:362-403 | the writer's sequence of tests decides the same, so a text that one side takes the other takes |
| IntegerText.ValidityIsExact | src/reader.cpp:240-293 | accepts exactly the grammar-valid literals whose value fits, for text of any length |
| XmlText.IsValidXmlUtf8 | src/writer.cpp:136-185 | accepts exactly the encodings of sequences of XML 1.0 characters |
| XmlText.EncodedIsInjective | src/writer.cpp:136-185 | the encoded sequence is unique |
| XmlText.EscapeXml | src/writer.cpp:187-214 | escapes every valid text and refuses exactly the others |
| XmlText.UnescapeInverts | src/writer.cpp:187-214 | replacing the predefined entities undoes it |
| XmlText.NoRawMarkup | src/writer.cpp:187-214 | no raw '<' or '>', in attributes no '"', and every '&' begins an entity |
| XmlText.EscapedIsXmlText | src/writer.cpp:187-214 | the escaped text is itself valid |

## Left out

- HeaderMachine.XmlBuilder.StartElement: an element's own attribute checks arrive as one outcome, so which of several errors is reported first is not captured.
- HeaderRun.ParseHeader: the XML parser is represented by the nesting it guarantees, without the XML declaration; which error a rejected header gets is not characterised beyond the handlers' codes. Classification of property types and the checks of single values are parameters.
- Storage.PropertyStorage: the planners of thumbnails, profiles and properties go on to the compression and checksum texts, as the one for images does; for these three that part is not repeated. The table of element sizes is a parameter.
- Layout.MakeHeader: attribute texts other than block locations are carried as ready text.
- Layout.AlignUpIsLeast: the mask on a power of two is modelled as the remainder it computes.
- Storage.TypedBytesAreExact: the sizes of the element types come as a table.
- RowStream.ReadImageRows: after a failed digest in the second pass the rows already offered are not taken back, as in the source.
- HeaderScan.TextShows: that the events report the tags of the text is what is asked of the XML parser; the scanner knows tags, attributes and text, not comments, entities or encodings. That the texts given to the layout scan as single elements is a hypothesis, proved of what is printed from escaped names and values.
- HeaderWritten.WrittenHeaderIsAccepted: that the reader takes each single attribute that the writer prints is a hypothesis.
- FileOpen.Open: the XML parser is a function from the header's text to its events, or none.
- Preparation.PreparationIsExact: a codec that fails although its room suffices, or a budget below its bound, is outside; the refusals are then the codec's own or ResourceLimit.
- EndToEnd.ReadWritten: the compression, subblocks and checksum texts of the block are handed from writer to reader directly.
- Readability.SafeWidthIsReadable: the codec's bound is a hypothesis; the bounds of lz4.h and zlib.h are stated as their headers define them.
- ImageRead.PlansAreValid: two-dimensional images with a known sample format; the other refusals of `plan_image_read` are single comparisons.
- CommitProtocol.StepKeepsInvariant: an inode is named by the call and the ordinal of its creation.
- XmlText.UnescapeInverts: the round trip through an XML parser's attribute-value and line-end normalisation is not claimed.
- Cancellation appears in the commit protocol as a step that may happen at any time; elsewhere stop tokens are left out.
- Compression libraries, digests, the XML parser: foreign code, represented by hypotheses. A streaming digest is a function of the concatenated bytes.
- Memory-allocation failures, streams, file descriptors and platform branches; counters of elements and bytes are unbounded where the source only compares them with limits.
- A span of a caller's buffer is the front of an array.
- Zstandard's window limit; the library type `uLong` is taken as 64 bits wide.
- `std::sort` of ranges is an insertion sort; acceptability is proved independent of the order of equal offsets.
- Floating-point bounds, locales, FITS keywords, property identifiers, time points, ICC profiles, checksum texts, thumbnails' and properties' own read functions: one-branch facts or library conversions.
- The viewer, the command-line tools, the examples and the build.
